# A verified model of rightsizer

rightsizer watches a VMware vCenter for some weeks, folds millions of performance
samples into a few kilobytes per VM, and recommends smaller VMs, fewer hosts and
new hardware from what it kept. This project models the parts where that can go
wrong and proves what they promise, for every input and every run:

- **the statistics store**: saturating histograms that never under-report a
  percentile (`Histogram.dfy`, `LogHistogram.dfy`, on top of `Ranks.dfy`), demand
  slots that are exact means (`Slots.dfy`), the per-VM and per-cluster stores that
  fold samples into them (`Series.dfy`, `VmStore.dfy`, `HostSamples.dfy`,
  `HostCalls.dfy`, `HostStore.dfy`), and what clusters and datastores then say about
  all their hosts together (`Tallies.dfy`, `KeyStreams.dfy`, `HostStreams.dfy`,
  `LaterHost.dfy`);
- **reading vCenter**: the greedy plan that tiles the past (`HistoryPlan.dfy`),
  queries that halve their batch, converted and merged by timestamp
  (`Query.dfy`), and what both mean for the store: every sample once
  (`Ingest.dfy`, `HostPolls.dfy`, `Import.dfy`, `FullImport.dfy`), so that the bounds hold for
  every VM (`VmStreams.dfy`);
- **peaks**: Pearson correlation as a discrete Cauchy-Schwarz inequality
  (`Pearson.dfy`), union-find with path halving (`Components.dfy`) and the groups it
  yields (`CoPeaks.dfy`), combined peaks (`Peaks.dfy`) and how far the diversity
  factor can go (`Diversity.dfy`);
- **recommendations**: node options that are feasible, minimal and complete
  (`Nodes.dfy`), rightsized VMs and clusters that still carry the exact samples
  (`Rightsize.dfy`);
- **the analysis lifecycle** as a state machine over all its runs
  (`Lifecycle.dfy`);
- **the appliance's host layer**: an undo log that survives being cut off at any
  step (`HostLayer.dfy`).

Floating-point numbers are `real`; times are whole nanoseconds since the zero
time, which is 0. Classes keep the fields and loops of the source, and each method
is proved equal to a function of the old state; the lemmas are about those
functions. What the source reads from outside (the clock, the server's replies, the
point where a machine stops) is a parameter. Where Go ranges over a map the model
takes the keys in any order.

Five properties fail, each at an input that the code can meet, and each has its
exact condition:

- What is kept of a cluster or a datastore is meant to hold one value per timestamp, of
  all hosts together, but a timestamp whose hosts arrive in two calls is recorded as two
  parts, and every percentile may come out at half of the demand
  (`LaterHost.LaterHostHalvesDemand`), so that the hosts recommended are too few
  (`Rightsizing.LaterHostTooFewHosts`). It holds one value per timestamp if and only if
  every timestamp has what there is to record in one call (`HostStreams.SumsIff`), as
  after an import (`FullImport.ImportRecordsSums`).
- An analysis may run longer than the 30 days that `MaxTotal` is documented to be:
  reopening checks the limit before it logs in and sets the end after
  (`Lifecycle.ReopenMayExceedTotal`). A reopened analysis is sure to fit if and only
  if it fits with the longest login added at the check (`Lifecycle.ReopenFitsIff`).
- The diversity factor may exceed the number of VMs: 101 for two VMs measured at
  different times (`Diversity.DiversityOf101`). The bound holds for all demands in
  given slots if and only if every VM leaves at least as many slots above its
  percentile as the cluster does above the combined one
  (`Diversity.DiversityBoundedIff`).
- A poll may start after a sample it has not read, because it starts a minute before
  the newest sample of any VM (`Ingest.LateHostLosesSample` for a VM,
  `HostPolls.LateHostIsMissed` for a host). A run of polls loses nothing if and only
  if no poll does (`Ingest.PollsAreOnePassIff`, `HostPolls.HostPollsAreOnePassIff`).
- A host's samples divided between two calls may lose one when two of them share a
  timestamp, as in a series that repeats one (`VcQuery.RepeatedStampStays`,
  `HostCalls.RepeatedStampLosesSample`); they are kept if and only if the division is
  not between two new ones (`HostCalls.SplitKeepsAllIff`).

`dafny verify dfyconfig.toml` checks everything.

## Model

| member | source | states |
|---|---|---|
| Histograms.AddCount | internal/analysis/stats.go:38-47 | a bucket counter is the smaller of the true sum and 2^32 - 1: it saturates and never wraps |
| Histograms.Hist.constructor | internal/analysis/stats.go:14-19 | a new histogram is the empty one, the state of no samples |
| Histograms.Hist.AddN | internal/analysis/stats.go:25-35 | the array is updated in place to the state the stream lemmas below speak about |
| Histograms.Hist.Pct | internal/analysis/stats.go:49-62 | the scan over the buckets returns the percentile the bounds below speak about |
| Ranks.ScanStopsAtRank | internal/analysis/stats.go:53-60 | a scan of bucket counts that stops at a rank brackets the exact value, from below even if counts saturated, from above where they are exact |
| Ranks.NearestRankUnique | internal/analysis/peaks.go:112-120 | at most one value has a given rank, so the exact percentile is well defined |
| Ranks.NearestRankIsPercentile | internal/analysis/stats.go:53 | the exact percentile p is the value with less than p percent of the weight below it and at least p percent at or below it |
| Histograms.FoldCounts | internal/analysis/stats.go:25-35 | N is the exact total weight, and every counter is the exact weight of its half percent, capped |
| Histograms.FoldMax | internal/analysis/stats.go:34 | Max is the largest counted sample |
| Histograms.FoldSum | internal/analysis/stats.go:33 | the running sum is the weighted sum of the counted samples |
| Histograms.PctHasExactValue | internal/analysis/stats.go:49-53 | every stream with a counted sample and every p in (0, 100] has an exact nearest-rank percentile to compare with |
| Histograms.PctNotBelow | internal/analysis/stats.go:49-62 | for any stream and any p, the reported percentile is never below the exact one, even when buckets saturated |
| Histograms.PctNotAbove | internal/analysis/stats.go:49-62 | without saturation it is at most half a percent above the exact one, and never above the largest sample |
| Histograms.OrderIrrelevant | internal/analysis/stats.go:25-35 | streams with the same multiset of samples leave the same state |
| Histograms.WeightIsRepetition | internal/analysis/stats.go:23-35 | AddN(v, n) leaves the state of n single adds |
| LogHistograms.LogBucket | internal/analysis/io.go:30 | bucket k holds the rates with 1.02^k <= 1 + v < 1.02^(k+1), up to the uint16 cap |
| LogHistograms.FloatStaysBelowCap | internal/analysis/io.go:30-51 | no float64 reaches the last bucket, so the uint16 k + 1 of Pct never wraps |
| LogHistograms.LogHist.AddN | internal/analysis/io.go:23-35 | the map is updated to the state the stream lemmas below speak about |
| LogHistograms.SortedKeys | internal/analysis/io.go:41-45 | the keys of the map, each once, ascending |
| LogHistograms.LogHist.Pct | internal/analysis/io.go:37-55 | the scan over sorted keys returns what a scan over all 65536 buckets would |
| LogHistograms.LogFoldCounts | internal/analysis/io.go:31-32 | N is the exact total weight, and every counter the exact weight of its bucket, capped |
| LogHistograms.LogFoldMax | internal/analysis/io.go:34 | Max is the largest counted rate |
| LogHistograms.LogFoldSum | internal/analysis/io.go:33 | the running sum is the weighted sum of the counted rates |
| LogHistograms.LogPctHasExactValue | internal/analysis/io.go:37-46 | every stream with a counted sample and every p in (0, 100] has an exact nearest-rank percentile to compare with |
| LogHistograms.LogPctNotBelow | internal/analysis/io.go:37-55 | for rates of any magnitude, the reported percentile is at least the exact one and at most Max |
| LogHistograms.LogPctNotAbove | internal/analysis/io.go:37-55 | without saturation it is at most 1.02 x + 0.02 for the exact percentile x |
| LogHistograms.LogAddedCommutes | internal/analysis/io.go:23-35 | two samples leave the same state in either order |
| DemandSlots.LongSampleCoversOverlap | internal/analysis/stats.go:242-244 | a sample longer than half an hour goes to exactly the slots it shares an instant with |
| DemandSlots.ShortSampleCoversMidpoint | internal/analysis/stats.go:238-241 | a sample of up to half an hour goes to the slot its midpoint lies in |
| DemandSlots.AddDemandAt | internal/analysis/stats.go:233-261 | one sample pushes its value once into every slot it covers, below the slot limit, and leaves all others alone |
| DemandSlots.SlotIsMean | internal/analysis/stats.go:247-261 | after any stream a slot's count is the number of values recorded there, capped, its content is their exact mean until then, and both slices keep one length of at most 1536 |
| DemandSlots.SlotBetween | internal/analysis/stats.go:256-260 | even after the counter saturated a slot stays between the smallest and the largest value recorded in it |
| VcSeries.Sum | internal/vc/perf.go:70-84 | the sum of the reported values over all datastores whatever the order of the map, -1 when none was reported |
| VmStore.Weight | internal/analysis/stats.go:170-175 | an interval of up to 20 seconds counts as one sample, a longer one as many as whole 20 seconds fit into it |
| VmStore.Stat.AddN | internal/analysis/stats.go:79-86 | count, weighted sum and maximum take in every non-negative sample of positive weight |
| VmStore.VmStats.SetSlot | internal/analysis/stats.go:247-261 | both slices are grown and overwritten in place as the slot lemmas describe |
| VmStore.VmStats.AddDemand | internal/analysis/stats.go:233-245 | the loop over the slots of a sample does what AddDemandAt is about |
| VmStore.VmStats.Offer | internal/analysis/stats.go:196-228 | a sample newer than Last is folded into every field with the weight of its interval, any other changes nothing |
| VmStore.Store.constructor | internal/analysis/stats.go:163-168 | a new store knows no VM and keeps slots from the half hour its anchor lies in |
| VmStore.Store.AddVM | internal/analysis/stats.go:188-229 | the VM's statistics become those of offering every sample of the series in order; all other VMs keep theirs |
| Ingest.OfferIsCountAccepted | internal/analysis/stats.go:196-199 | offering samples equals one pass that counts each accepted sample exactly once and no other |
| Ingest.AcceptedAscends | internal/analysis/stats.go:197-199 | accepted samples are strictly ascending and newer than Last |
| Ingest.CountAllTotals | internal/analysis/stats.go:226-227 | Samples grows by the weights of the counted samples, Last is the newest of them |
| Ingest.EarlierPollReplayed | internal/analysis/stats.go:194-228 | any earlier poll can be repeated after any later ones without effect |
| Ingest.NothingLostIff | internal/engine/source.go:488-496 | a poll, with a start or without, loses no sample newer than a VM's Last if and only if the server holds none between Last and where the poll begins to read |
| Ingest.PollStartIsLater | internal/engine/source.go:488-496 | a poll starts at the later of a minute before the newest sample and 55 minutes ago, or has no start without a sample |
| Ingest.RecentAre | internal/vc/perf.go:247-253 | without a start the 15 newest samples are read, or all when there are fewer |
| Ingest.ReadIsBetween | internal/vc/perf.go:247-253 | a poll without a start reads the 15 newest samples, any other those after its start, and both are everything after one time |
| Ingest.PollsAreOnePassIff | internal/engine/source.go:477-535 | over any run of overlapping polls the statistics are one pass over the server's samples, from the VM's Last or, for a VM never seen, from what its first poll reads, if and only if no poll begins to read after a sample that was not read before |
| Ingest.LateHostLosesSample | internal/engine/source.go:488-496 | with one host reporting 100 seconds late, the next poll starts after a sample of its VM, which is never counted |
| VmStreams.StatisticsOfStream | internal/analysis/stats.go:188-229 | whatever a VM was offered, its two histograms, eight sums, demand slots and sample count are those of the stream of accepted samples |
| VmStreams.LongSampleIsMany | internal/analysis/stats.go:188-229 | a sample of 20 k seconds leaves the histograms, sums and sample count that k samples of 20 seconds with its values leave |
| VmStreams.SampleReadsCounters | internal/analysis/stats.go:200-225 | every field of a sample is the value of its own counter at that place, or -1 |
| VmStreams.ShareIs | internal/analysis/stats.go:208-214 | ready and co-stop are milliseconds in percent of the interval times the vCPU, unknown without either |
| VmStreams.FirstIsStart | internal/analysis/stats.go:223-225 | First is where the first accepted sample begins |
| Tallies.StatFoldTotals | internal/analysis/stats.go:79-86 | a plain sum holds the number and the sum of the reported values, each by its weight |
| Tallies.StatFoldMax | internal/analysis/stats.go:79-86 | and the largest of them |
| VmStreams.VmPercentilesNotBelow | internal/analysis/stats.go:188-229 | a VM's percentiles are never below the exact ones of its accepted samples |
| VmStreams.VmSlotIsMean | internal/analysis/stats.go:222-261 | a VM's demand slot is the exact mean of the accepted readings that cover it, until its counter saturates |
| HistoryPlanning.SortByPeriod | internal/vc/perf.go:140-141 | a permutation of the intervals, finest first |
| HistoryPlanning.HistoryPlan | internal/vc/perf.go:142-159 | the greedy loop returns the plan the lemmas below speak about, for some order that sorting may give |
| HistoryPlanning.PlanTiles | internal/vc/perf.go:128-160 | read as (start, end], the windows run back from now without gap or overlap, so they are pairwise disjoint |
| HistoryPlanning.CoveredIffRetained | internal/vc/perf.go:145-158 | an instant of the period asked for is read if and only if some enabled interval still holds it |
| HistoryPlanning.ReadAtFinest | internal/vc/perf.go:126-158 | it is read at the finest resolution any interval that holds it offers |
| HistoryPlanning.WindowsWithin | internal/vc/perf.go:142-157 | every window lies within the period asked for |
| HistoryImport.Trim | internal/vc/perf.go:370-407 | times and all counters are picked at the indices inside the window |
| HistoryImport.TrimIsBetween | internal/vc/perf.go:368-407 | trimming keeps exactly the samples with start < t <= end, with all their counters |
| FullImport.ImportHistory | internal/engine/source.go:216-270 | one refused window, of VMs or of hosts, discards everything; otherwise every VM is what its stream of trimmed answers, oldest window first, makes of a new one, and the host store holds what the same windows of host series make of an empty one, sums and clusters alike |
| FullImport.ImportRecordsSums | internal/engine/source.go:242-254 | the windows of a plan share no timestamp, so after an import every summary of a cluster or datastore is that of one value per timestamp, all hosts together |
| FullImport.HostsExactlyOnce | internal/engine/source.go:242-254 | over the windows of any plan every in-window host sample is accepted exactly once: a window adds what all its samples amount to |
| HistoryImport.StreamHoldsEveryWindow | internal/engine/source.go:242-254 | a sample is in that stream if and only if it was returned for a window and lies in it |
| HistoryImport.ImportIsExactlyOnce | internal/engine/source.go:216-270 | over the windows of any plan every in-window sample is counted exactly once, none is refused by the "newer than Last" test, and Samples is the sum of all weights |
| VcQuery.Convert | internal/vc/perf.go:321-366 | the loops build the series the two lemmas below speak about |
| VcQuery.ConvertSorts | internal/vc/perf.go:321-334 | whatever order the server used, all samples come out oldest first, each counter with one value per sample, and no datastore counter has an empty instance |
| VcQuery.ConvertAligns | internal/vc/perf.go:335-364 | every converted value, aggregate or of a datastore, stands at the place of its own timestamp, -1 when the server sent none |
| VcQuery.ConvertHolds | internal/vc/perf.go:335-350 | a series holds exactly the aggregate counters sent without an instance and the datastore counters sent with one |
| VcQuery.ScaleIs | internal/vc/perf.go:409-418 | percentages come in hundredths, other values as they are, a negative value is a missing one |
| VcQuery.RunQuery | internal/vc/perf.go:231-276 | returns the trimmed series of the accepted calls in order, and the reply that stopped it, if any |
| VcQuery.AnswersPartition | internal/vc/perf.go:237-275 | accepted calls partition the entities in order: all of them on success, a prefix otherwise, in at most as many calls as entities |
| VcQuery.RepeatedStampStays | internal/vc/perf.go:321-346 | a timestamp that the server sent twice is in the converted series twice |
| VcQuery.HalvingsIsLog | internal/vc/perf.go:261-265 | a batch can be halved as often as its binary logarithm, rounded down |
| VcQuery.FewCalls | internal/vc/perf.go:261-266 | besides accepted calls there is at most one rejected call per halving of the batch, and one final failure |
| VcQuery.SucceedsEventually | internal/vc/perf.go:261-275 | a server that accepts every single-entity query and never fails otherwise gets every entity answered |
| VcQuery.MergeInst | internal/vc/perf.go:280-314 | the core series are updated in place to the merge of all datastore series |
| VcQuery.MergeAligns | internal/vc/perf.go:280-314 | after all merges every core sample has the value of its own timestamp from the one extra series of its entity, or -1, in arrays as long as the samples |
| VcQuery.MergeToAt | internal/vc/perf.go:285-289 | a merge changes the series of an entity by the extra series of that entity and by no other |
| VcQuery.MergeToKeepsShape | internal/vc/perf.go:303-310 | whatever was merged, every array is as long as the timestamps of its series |
| VcQuery.MergeToKeepsNames | internal/vc/perf.go:295-310 | merging named datastore counters never makes one with an empty instance, so AddHosts may be given what a query returns |
| VcQuery.Batch | internal/vc/perf.go:190-195 | a historical batch is the largest within 64 entity and counter pairs, and never less than one entity |
| VcQuery.Client.Query | internal/vc/perf.go:171-230 | samples and core counters are those of the core request whatever becomes of the datastore request, and only "too large" makes later reads skip that |
| HostSamples.IoAdded | internal/analysis/io.go:105-131 | a datastore's report adds its reported values and nothing for unreported ones |
| HostSamples.GivenIs | internal/analysis/io.go:105-124 | each of the four counters of a datastore adds its reported value, and whether any was reported is kept for operations and for throughput |
| HostSamples.GivenLatency | internal/analysis/io.go:125-132 | latency is weighted by the operations of its direction |
| HostSamples.DemandIs | internal/analysis/stats.go:303-326 | a host adds the operations and throughput of all its datastores and its own MHz, KB of memory times 1024 and network, as far as reported |
| HostSamples.Gather | internal/analysis/stats.go:287-329 | the loops over series, samples and datastores end with exactly the sums that the next lemmas speak about, and with HostLast at the newest samples; with nothing new they gather nothing |
| HostSamples.BucketsAreSums | internal/analysis/stats.go:268-328 | hosts of a cluster that share a timestamp are summed: there is one bucket for exactly the clusters and times with an accepted sample, holding the operations, throughput, MHz, memory and network of exactly those samples, and what of them was reported at all |
| HostSamples.IoSamplesAreSums | internal/analysis/stats.go:314-318 | so are the reads, writes, KB and latency of a datastore, and of all of them, at one timestamp |
| HostSamples.ThreeSumsAgree | internal/analysis/stats.go:313-328 | for any series, datastores, total and clusters receive the same operations and throughput |
| HostCalls.SeenCovers | internal/analysis/stats.go:289-292 | over converted series HostLast never goes back and ends at or after every sample of the call |
| HostCalls.EarlierCallReplayed | internal/analysis/stats.go:289-292 | offering an earlier call again, whatever came in between, finds nothing new, so AddHosts leaves every counter unchanged |
| HostCalls.CallsAddUp | internal/analysis/stats.go:287-329 | one call with two lists of series receives what two calls receive, by name and by timestamp |
| HostCalls.SplitAnywhere | internal/analysis/stats.go:289-329 | one host's samples can be divided between two calls wherever the timestamp changes: the same load and demand are received |
| HostCalls.SplitEachAnywhere | internal/analysis/stats.go:289-329 | so can the samples of many hosts, each host's at its own point |
| HostCalls.SplitKeepsAllIff | internal/analysis/stats.go:293-296 | divided at any point, all samples are accepted if and only if the division is not between two new ones with one timestamp |
| HostCalls.RepeatedStampLosesSample | internal/analysis/stats.go:293-296 | two samples of 100 MHz at one time, divided: the second is refused, and 100 of the 200 MHz are never recorded |
| HostPolls.ReadOfReads | internal/vc/perf.go:247-253 | what a poll returns of a host is the piece of its samples that any poll of that start reads |
| HostPolls.RoundsCount | internal/analysis/stats.go:287-329 | a run of polls adds to storage, clusters and the number of samples exactly what its polls newly read of each host, and HostLast is the newest of that |
| HostPolls.HostPollsAreOnePassIff | internal/engine/source.go:488-535 | over any run of polls the samples of all hosts are accepted in one pass if and only if no poll begins to read a host after a sample of it that was not read before, and every datastore, cluster and timestamp is then given what that pass amounts to |
| HostPolls.LateHostIsMissed | internal/engine/source.go:488-496 | a host whose newest sample is 100 seconds old at the first poll loses the next one, whatever it holds |
| HostStore.IoRecordedSum | internal/analysis/io.go:135-150 | recording a summed sample raises the read, write and both KB sums by value times weight, and keeps operations the sum of reads and writes, and throughput of both directions |
| HostStore.ClusterRecordedSum | internal/analysis/stats.go:350-367 | recording a bucket raises a cluster's operations, throughput, MHz and memory sums by value times weight, whatever its capacity |
| HostStore.HostStore.AddHosts | internal/analysis/stats.go:270-367 | every sum per timestamp is recorded exactly once; the stored sums of every datastore, of the total, of all datastores together, of every cluster and of all clusters grow by what the samples newer than HostLast amount to, times the weight; the three ways of summing stay equal; a call with nothing new changes nothing |
| HostStore.AnyOrder | internal/analysis/stats.go:333-367 | steps that commute leave the same state whatever order a Go map is ranged over in |
| HostStore.ClusterStepsCommute | internal/analysis/stats.go:344-367 | recording the buckets of a call commutes |
| HostStore.IoStepsCommute | internal/analysis/stats.go:333-343 | recording its storage samples commutes |
| HostStreams.ClusterTally | internal/analysis/stats.go:350-367 | a recorded bucket is one value for each of the seven summaries of its cluster: CPU and memory in percent of capacity and absolute, network, operations and throughput, the last three when reported |
| HostStreams.DatastoreTally | internal/analysis/io.go:135-150 | a recorded sample is one value for each of the nine summaries of its datastore: operations are reads plus writes, throughput both directions, latency the weighted mean, each when reported |
| HostStreams.CallRecordsSums | internal/analysis/stats.go:333-367 | a call adds to every such summary one value per timestamp of that call, what its hosts add up to, each with the weight of the call |
| HostStreams.SumsIff | internal/analysis/stats.go:268-367 | over any run of calls a summary is that of one value per timestamp, all hosts over the whole run, if and only if no timestamp has something to record in two calls; for the two sizes the calls themselves are all that is stated |
| HostStreams.RatesNotBelow | internal/analysis/io.go:37-55 | so under that condition the percentiles of the operations, throughput and latency of a datastore or of all of them, and of those and the network of a cluster, are never below the exact ones of the sums per timestamp |
| HostStreams.SplitCallsIff | internal/analysis/stats.go:268-367 | calls of equal weight leave what one call with all their series leaves, under the same condition and only then |
| LaterHost.LaterHostHalvesDemand | internal/analysis/stats.go:268-356 | two hosts with half of the capacity in use at one time: in two calls every percentile of the cluster reads 50%, in one call 100% |
| Tallies.TallyAnyOrder | internal/analysis/stats.go:333-367 | no summary depends on the order of its values |
| Tallies.TallyIs | internal/analysis/stats.go:23-35 | the summaries are the two histograms, the plain sums and the weighted amounts |
| PearsonCorrelation.Pearson | internal/analysis/peaks.go:190-213 | the one-pass loop computes the coefficient the lemmas below speak about |
| PearsonCorrelation.PearsonIsCorrelation | internal/analysis/peaks.go:190-213 | that coefficient is the sum of products of deviations from the means over the root of the two sums of squared deviations |
| PearsonCorrelation.CoefficientTimesRoot | internal/analysis/peaks.go:207-212 | r times that root is that sum of products, so its sign is that of the covariance |
| PearsonCorrelation.CommonSlots | internal/analysis/peaks.go:192-203 | the value pairs are the two demands in exactly the slots where both counters are positive, in order |
| PearsonCorrelation.CovIsCentred | internal/analysis/peaks.go:207 | the one-pass covariance is the sum of products of deviations from the means |
| PearsonCorrelation.VarIsCentred | internal/analysis/peaks.go:208 | the one-pass variances are the sums of squared deviations from the means |
| PearsonCorrelation.CovarianceBound | internal/analysis/peaks.go:207-208 | cov * cov <= vx * vy |
| PearsonCorrelation.PearsonDefined | internal/analysis/peaks.go:204-211 | there is no coefficient if and only if fewer than 48 slots are shared or one series is constant on them |
| PearsonCorrelation.PearsonInRange | internal/analysis/peaks.go:212 | a coefficient lies in [-1, 1] |
| PearsonCorrelation.PearsonSymmetric | internal/analysis/peaks.go:190-213 | the order of the two series does not matter |
| PearsonCorrelation.PearsonWithSelf | internal/analysis/peaks.go:190-213 | a series that varies correlates with itself by exactly 1 |
| Components.Find | internal/analysis/peaks.go:133-139 | path halving terminates on every reachable parent array, keeps it an acyclic forest, moves no root and returns the root |
| Components.Union | internal/analysis/peaks.go:149 | hanging one root under the other keeps the array an acyclic forest |
| Components.JoinedPartition | internal/analysis/peaks.go:149 | after a union two nodes share a root if and only if the edges so far, with the new one, connect them |
| CoPeaks.Correlate | internal/analysis/peaks.go:128-177 | the groups are exactly the connected components of at least two VMs of the graph "r >= 0.8", each once, each with R its largest edge; the listed pairs are exactly those with r <= -0.4, each once and with its r, where r is the centred quotient |
| CoPeaks.GroupByRoot | internal/analysis/peaks.go:158-171 | the grouping loop collects, per root, all its members in order and their strongest correlation, leaving out VMs without an edge |
| CoPeaks.GroupsAreComponents | internal/analysis/peaks.go:148-171 | grouping by root with the isolated VMs skipped yields the components, whatever unions came in whatever order |
| Peaks.PercentileIsNearestRank | internal/analysis/peaks.go:112-120 | the percentile of a list is its exact nearest-rank percentile and one of its values |
| Peaks.PercentileMonotone | internal/analysis/peaks.go:112-120 | raising values pointwise never lowers a percentile |
| Peaks.AddLoad | internal/analysis/peaks.go:64-76 | the growing total and seen arrays hold the pointwise sums of the VMs so far |
| Peaks.ValuesOfSlots | internal/analysis/peaks.go:64-76 | the values of a VM are its demands in the slots with data, in order |
| Peaks.SumsOfSlots | internal/analysis/peaks.go:69-83 | the values of a cluster are the summed demands of the slots any VM has data for, in order |
| Peaks.ComputePeak | internal/analysis/peaks.go:55-91 | over exactly the VMs that are powered on, with slots and an hour of samples: the sum of their peaks, the combined peak and how many times the one is the other; none when the combined peak is not positive |
| Peaks.CombinedAtMostMaxima | internal/analysis/peaks.go:81-87 | the combined percentile never exceeds the sum of the VMs' maxima |
| Diversity.PercentileReaches | internal/analysis/peaks.go:112-120 | a percentile reaches a level if and only if more values do than lie above its rank |
| Diversity.CombinedCoversEach | internal/analysis/peaks.go:81-87 | with enough slots above its percentile, a VM's own peak is covered by the combined one |
| Diversity.DiversityBoundedIff | internal/analysis/peaks.go:55-91 | whatever non-negative demand fills given slots, the diversity factor is at most the number of VMs if and only if every VM with data leaves at least as many of its slots above its percentile as the cluster leaves above the combined one |
| Diversity.DiversityAtMostCount | internal/analysis/peaks.go:91 | with data in the same slots the diversity factor is at most the number of VMs |
| Diversity.DiversityOf101 | internal/analysis/peaks.go:64-91 | two VMs that count, one with 100 for an hour and another with 1 for twenty other hours, have a factor of 101 at the 95th percentile |
| NodeSizing.MemFrom | internal/analysis/sizing_nodes.go:76-81 | the smallest catalogue memory that is enough, 0 if and only if none is |
| NodeSizing.SearchNodes | internal/analysis/sizing_nodes.go:73-86 | the loop stops at the first node count the catalogue serves, or past 64 |
| NodeSizing.NodeOptions | internal/analysis/sizing_nodes.go:55-101 | nothing without a need; otherwise one option for each CPU size that any nodes and memory make fit, with the fewest nodes and the least memory for them, with the planned load, ratio, clock and NUMA fit of the nodes left after losing the spares, and nothing else |
| NodeSizing.OptionIsMinimal | internal/analysis/sizing_nodes.go:68-99 | for every CPU shape an option carries cores, memory and the largest VM with every spare out, takes the fewest nodes that any catalogue memory allows and the least memory for them; a missing option means nothing up to 64 nodes is feasible |
| NodeSizing.OptionsAreShapes | internal/analysis/sizing_nodes.go:68-99 | the list holds the option of every shape that has one, and nothing else |
| NodeSizing.NodesMonotone | internal/analysis/sizing_nodes.go:68-99 | a smaller need never takes more nodes |
| NodeSizing.NeedIsPlanned | internal/analysis/sizing.go:516-528 | planned vCPU and memory are those of the basis, powered-off VMs as asked, grown and rounded up; demand is grown |
| NodeSizing.RatioIsPlanned | internal/analysis/sizing.go:529-532 | the ratio is the one asked for, or today's to one decimal but at least four |
| NodeSizing.NeedIsLeast | internal/analysis/sizing.go:533-538 | the cores needed are the fewest that carry the vCPU at that ratio and the demand at the CPU target; memory is planned memory with overhead at the memory target |
| NodeSizing.NeedCovers | internal/analysis/sizing.go:513-545 | as many cores as needed cover the vCPU at the planned ratio and the demand at the CPU target |
| NodeSizing.CpuWithinTarget | internal/analysis/sizing_nodes.go:89-91 | planned CPU load stays at or below the target on the nodes left after losing the spares |
| NodeSizing.MemWithinTarget | internal/analysis/sizing_nodes.go:92 | so does planned memory |
| NodeSizing.RatioWithinPlan | internal/analysis/sizing_nodes.go:93 | vCPU per core stays within the planned ratio, with the spares out and so with all nodes |
| NodeSizing.MinGhzIsLeast | internal/analysis/sizing_nodes.go:94-96 | a clock keeps CPU at the target with the spares out if and only if it is at least MinGHz |
| NodeSizing.PickOption | internal/analysis/sizing_nodes.go:106-134 | -1 only for no options; otherwise an option within 10% of the fewest cores, fitting a NUMA node if any such option does, then with the fewest nodes, then cores, and the first of its equals |
| Rightsizing.ProfilesAreValid | internal/analysis/recommend.go:23-27 | all three profiles meet what the lemmas below ask of a profile |
| Rightsizing.VcpuIsLeast | internal/analysis/recommend.go:545-571 | from a p99 of 90% on and below 64 vCPU the fewest vCPU that carry the p99, one more at least; otherwise the fewest that carry the percentile of the profile, between one and today's |
| Rightsizing.MemIsDecided | internal/analysis/recommend.go:573-605 | from an active p95 of 90% on a quarter more, in whole GiB; otherwise active memory with headroom and both floors, in whole GiB, if that saves a GiB, or today's |
| Rightsizing.ShrunkVcpuCarriesSamples | internal/analysis/recommend.go:545-571 | whenever vCPU shrink, the exact sample percentile fits the new vCPU at the CPU target, even if counters saturated |
| Rightsizing.ShrunkVcpuIsTight | internal/analysis/recommend.go:545-571 | and above one vCPU they exceed the exact need by less than one vCPU and one histogram bucket |
| Rightsizing.GrownVcpuCarriesPeak | internal/analysis/recommend.go:547-549 | vCPU grow only when the histogram's p99 is 90% or more, and then carry the exact p99 at the target |
| Rightsizing.ShrunkMemCoversActive | internal/analysis/recommend.go:573-605 | whenever memory shrinks, it is a whole number of GiB, saves at least one, and covers exact active memory with headroom and both floors |
| Rightsizing.ShrunkVmCarriesStream | internal/analysis/recommend.go:545-605 | end to end: what shrinks for a VM of the store still carries the exact CPU and active memory percentiles of the samples the store accepted |
| Rightsizing.ClusterResult.SizeCluster | internal/analysis/recommend.go:656-681 | left alone without hosts; otherwise CPU and memory at the host targets, the fewest cores and hosts for each, one spare unless standalone, and two hosts at least then |
| Rightsizing.HostsAreEnoughAndMinimal | internal/analysis/recommend.go:665-680 | with the HA spare out the hosts carry CPU and memory at the host targets, and no smaller positive number does |
| Rightsizing.HostsCarrySamples | internal/analysis/recommend.go:656-681 | they carry the exact percentile of whatever values the cluster's histogram recorded |
| Rightsizing.HostsCarryDemand | internal/analysis/recommend.go:656-681 | end to end: over any run of calls with every timestamp in one call, they carry the exact percentile of the demand of all hosts per timestamp |
| Rightsizing.LaterHostTooFewHosts | internal/analysis/recommend.go:656-681 | when one of two hosts arrives in a later call, every profile keeps two hosts besides the spare, which cannot carry at the target what they carried at that time |
| Lifecycle.Source.Begin | internal/engine/source.go:83-92 | the window starts now and lasts the duration asked for, if that is allowed |
| Lifecycle.Source.Poll | internal/engine/source.go:521-534 | a poll clears pending login failures, changes nothing else and saves |
| Lifecycle.Source.Fail | internal/engine/source.go:438-458 | collection stops when canceled or on the third login failure in a row, which pauses the analysis |
| Lifecycle.Source.Resume | internal/engine/source.go:94-101 | only a paused analysis resumes, with no pending failures |
| Lifecycle.Source.Extend | internal/engine/engine.go:344-369 | accepted if and only if the extension is 1 to 14 days and the total fits 30; an open analysis ends that much later, a finished one runs again from now, both keep their start and are saved; refused, nothing changes |
| Lifecycle.Source.Finalize | internal/engine/source.go:537-546 | finishing twice is finishing once |
| Lifecycle.Source.Restart | internal/engine/engine.go:162-178 | a restart reloads what was saved and pauses what was running |
| Lifecycle.RunIsSafe | internal/engine/source.go:83-152 | over all runs, saves by background jobs included, in memory and on disk: Duration is Ends - Started, Finished is set exactly in Done, fewer than three login failures are pending while running, and the total stays within 30 days plus the time a login takes |
| Lifecycle.RunStaysWithinTotal | internal/engine/engine.go:355-362 | a run whose reopenings all leave room for the longest login never exceeds 30 days |
| Lifecycle.StartNeverMoves | internal/engine/source.go:83-152 | once begun, no later step moves the start that demand slots are counted from |
| Lifecycle.WindowHasSlots | internal/engine/engine.go:36-38 | with logins shorter than a day and a half, every instant of the window has its demand slot below the limit of 1536 |
| Lifecycle.ReopenFitsIff | internal/engine/engine.go:355-362 | with logins of up to d, a reopened total fits the limit whatever the login takes if and only if it fits with d added at the time of the check |
| Lifecycle.ReopenMayExceedTotal | internal/engine/engine.go:36-38 | begun, finished and reopened at the last moment with a login of one second, a run ends beyond 30 days |
| HostLayer.TempNotAllowed | appliance/host/root/opt/rightsizer/bin/rightsizer-host:233 | no temporary name is a path that a bundle may install |
| HostLayer.AllowedIff | appliance/host/root/opt/rightsizer/bin/rightsizer-host:233 | a bundle may install names in the bin directory, rightsizer's own units and four configuration files |
| HostLayer.Host.Replace | appliance/host/root/opt/rightsizer/bin/rightsizer-host:238-245 | cut off anywhere, the destination holds its old file or, if complete, the new one; nothing else changes but the temporary file |
| HostLayer.Host.InstallFile | appliance/host/root/opt/rightsizer/bin/rightsizer-host:343-353 | cut off anywhere, one file line, the first for its path or a repeated one, leaves the log able to undo everything; when done the file is as it was if its content was right, and otherwise has content and mode of the line, and no other path changed |
| HostLayer.Host.Apply | appliance/host/root/opt/rightsizer/bin/rightsizer-host:324-373 | refused, cut off at any step or applied, the log can bring back every path; not cut off it refuses exactly the manifests with a line that is not acceptable; applied, every file has its content, with the mode of its first line where it was replaced, and no other path is touched |
| HostLayer.Host.RestoreHost | appliance/host/root/opt/rightsizer/bin/rightsizer-host:400-408 | undoes the lines of the log in order, as far as it gets |
| HostLayer.UndoToStaysUndoable | appliance/host/root/opt/rightsizer/bin/rightsizer-host:400-408 | undoing may itself be cut off anywhere and started again |
| HostLayer.UndoRestoresEverything | appliance/host/root/opt/rightsizer/bin/rightsizer-host:400-408 | a whole pass over the log brings every path back to its previous content or absence |
| HostLayer.Host.Upgrade | appliance/host/root/opt/rightsizer/bin/rightsizer-host:524-563 | after an upgrade whose bundle was not applied or whose new version did not start, a completed undo leaves every path as it was, and a cut-off one can be run again |

## Left out

- Floating point: NaN, infinities, rounding (float32 demand, float64 sums) and 64-bit overflow of sample counts; `math.Sqrt` is any function whose result squares to its argument.
- HostStore.HostStore.AddHosts: the entries of its maps are values, so sharing them with a caller is not modelled.
- HostStreams.SumsIff: says nothing of the two transfer sizes over a run, which need operations and throughput reported in one call; `HostStreams.CallRecordsSums` says what each call adds to them.
- HostStore.HostStore.AddHosts: requires that no counter names the empty instance, which `VcQuery.ConvertSorts` and `VcQuery.MergeToKeepsNames` show of every series a query returns.
- HistoryImport.ImportIsExactlyOnce: asks for at most one series of a VM per window, with strictly ascending times; of two samples with one timestamp the store counts the first.
- HostStreams.SumsIff: asks for capacity of the cluster in every call for percentages; where two calls share a timestamp, the value it compares with takes the capacity and weight of the first.
- HostPolls.HostPollsAreOnePassIff: takes each host's samples in strictly ascending order, one series per host and round, in the same order in every round.
- Ingest.PollsAreOnePassIff: takes the newest sample, the time and the server's reach as given for each poll, none of them going back; a poll without a start is given exactly the 15 newest samples.
- VcQuery.MergeAligns: asks for one series per entity in each answer, as one query specification per entity gives.
- VcQuery.Client.Query: asks for at least one core counter, by which the source divides; cancellation between the two requests is not modelled, and the converted replies are given.
- Lifecycle.RunIsSafe: every operation is one step, though `Extend` and `reopen` check and act in separate lock sections and `Resume` does not look at the phase again after logging in; saving always succeeds except in `Finalize` after a failed PDF.
- HostLayer.Host.Apply: promises an undo only when no list of an earlier upgrade is left, as the upgrade sees to on line 524; renaming and appending a line to the log are taken to be atomic, copies are not, and no directory stands at a path to install.
- CoPeaks.Correlate: starts after the filter, sort and limit on the VMs (lines 123-127) and ends before the display sorts and limits (lines 178-186); VMs are named by position.
- Heatmap, naive host count, findings, severities, confidence, idle VMs, snapshots, orphans, storage bytes, port plan, totals over clusters, exclusions, merging of sizings: straightforward arithmetic or text.
- The 5-minute timelines of clusters and storage, which are flushed by the wall clock, and syncHistory, which repeats the import for recent windows.
- Goroutines, context cancellation and stop(): no claim that a background goroutine ends.
- In rightsizer-host: directories, ownership, network settings, kernel arguments, unit masks and enables, Docker; the undo log does not cover them.
- govmomi and SOAP calls, login, TLS, inventory and estate conversion, vault, backups, reports, terminal and download servers.

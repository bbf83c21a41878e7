# A verified model of the KubeVirt metrics exporter

The exporter measures storage latency on a Kubernetes node that runs virtual machines. eBPF programs time block
and NFS requests in the kernel and keep logarithmic histograms; a collector turns these into Prometheus
histograms and names the volume behind each device. A second collector keeps a connection to the QEMU of every
virtual machine and reads its latency bins and virtqueues. A third asks the guest agent of Windows machines for
raw disk counters and turns differences of counters into rates and latencies.

The project models the state and arithmetic of these components and proves what they promise over every trace,
every schedule and every run. `dafny verify dfyconfig.toml` checks all of it.

| file | models |
|---|---|
| `Bits.dfy` | machine words, bit operations, the branch-free logarithm |
| `LatencyMaps.dfy` | the block and NFS tracepoint handlers as a machine over traces |
| `BlockCalls.dfy`, `NfsCalls.dfy` | the same handlers, said on the fields of their calls alone |
| `Interleaving.dfy`, `StartRaces.dfy` | the same handlers running concurrently, interleaved at each call on the histogram map and on the start map |
| `KprobeCalls.dfy` | NFS call probes that share one pending start per thread |
| `Histogram.dfy`, `EndToEnd.dfy` | kernel slots to buckets, and what an exported bucket and sum mean |
| `Export.dfy` | the eBPF collector |
| `Loader.dfy` | loading, rolling back, retrying and closing the eBPF programs |
| `QmpPoll.dfy`, `QmpConnections.dfy` | the QMP poll under every schedule, and the connection table over every run |
| `QmpScrape.dfy`, `QmpResults.dfy`, `QmpNames.dfy`, `QmpLabels.dfy`, `QmpBuckets.dfy`, `QmpCollect.dfy` | one QMP scrape, its caches, what it reports of QEMU's answers, its labels, its buckets and its metrics |
| `QgaRetry.dfy`, `QgaMetrics.dfy`, `QgaDisks.dfy`, `QgaCollect.dfy`, `WmiCsv.dfy` | the guest agent collector: giving up, diffing, naming disks, its gauges, reading CSV |
| `GoText.dfy`, `Tables.dfy`, `Containers.dfy` | Go's string functions, maps filled by loops, container IDs |
| `Seqs.dfy`, `Runs.dfy` | counting in and picking from lists, steps of runs |
| `DeviceNumbers.dfy`, `VolumePaths.dfy`, `Resolver.dfy` | from mountinfo text to volumes by device number |
| `DiskJoin.dfy` | joining guest drives with volumes |

Unsigned words are bounded integers with the wrap written out. `real` stands for float64. Clocks, scrape, dial,
fetch, load and attach outcomes are inputs, so a statement about all inputs covers all of them. An object whose
methods update its fields is a class; each of its methods is proved against a function on values, and the main
results are lemmas about runs of that function. What these functions compute is stated once more without them, on the
fields of calls, replies, rows and tables.

## What does not hold, and when it does

- A bucket of an eBPF histogram does not count the latencies at most its boundary: slot i holds
  `[2^i, 2^(i+1))` microseconds but is counted from `2^i` on. `ExactReadingIff` gives the boundaries for which
  the reading is exact on every trace; the default 10 ms boundary is not one of them. `ExportedBucketBounds` and
  `ExportedSumBounds` give the two-sided bounds that always hold.
- A QEMU bucket counts the latencies strictly below its boundary; `ExactIffNoneOnBoundary` says when that is the
  documented reading.
- A poll panics when `Concurrency` is negative and can hang exactly when it is zero and something is connected
  (`CompletesIff`); the configuration's validation excludes neither.
- Concurrent completions can lose a sample (`ARaceLosesAnAdd`): exactly when, after a handler took its pointer, a
  step installs a zero histogram for its key or evicts the key (`AddIsLostIff`). Without eviction that takes two
  handlers that missed the key together and both installed one (`LostAddsNeedARace`).
- Two completions can measure from one issue (`OneIssueTwoSamples`): exactly when one looks the request up between
  the other's lookup and the next issue, deletion or eviction of it (`OneToOneIff`). Nothing is shared when no
  completion looks a request up between another's lookup and deletion (`UncutRunsAreOneToOne`).
- A probed NFS call that makes another probed call is not sampled (`AllCallsSampledIffFlat`); a function probe's
  histogram counts the leaf calls (`HistogramsCountLeafCalls`, `CollectAfterCalls`).
- The comment on `ComputeMetrics` relies on counters that do not overflow, but the operation counters are 32 bits
  wide and are subtracted as 64-bit words; the result is right exactly when the counter did not wrap
  (`DeltaTrueIffNoWrap`).
- A failed fetch of claim names replaces the cache by an empty one, so the scrape that makes it loses the labels of
  every alias looked up from the first blank on, also of cached ones (`FailedFetchLosesLabels`). A scrape's labels
  are all true exactly when its own fetch succeeds or nothing it would fetch has a claim (`RunLabelsTrueIff`).
- Two virtio-scsi controllers get the same labels (`TwoControllersClash`), and so do two devices that the mount
  table assigns to the same claim of the same pod (`LabelsClashIff`), which a scan can produce
  (`SharedClaimIsReachable`).
- The order of CSV columns matters for a row shorter than its header (`TruncatedRow`). For any other row it matters
  exactly when a required column is repeated with different cells (`RowIsOrderFreeIff`), because the last occurrence
  counts (`ColumnIsLast`); `ColumnOrderCanMatter` is a table read as two different disks in two orders.
- `MkDev` loses information out of 12 major and 20 minor bits (`PartsOfMkDevIff`, `WideMinorsCollide`).
- A block load that fails to attach leaves its histogram map set although everything is closed, so "active exactly
  when the map is set" is an invariant of the two NFS subsystems only (`Loader.Sound`). For block tracing it
  holds after `LoadAndAttach` exactly when it is not the case that block was enabled, its objects loaded and a
  tracepoint failed to attach; `BlockMapStaysSet` is such an attempt.
- For the same reason shutdown closes the block objects a second time. Each resource is closed exactly once over
  loading, retries and shutdown if and only if block did not fail to attach beside an enabled NFS subsystem; with
  block tracing alone the exporter gives up before shutdown (`LoadRetryAndShutdown`).
- The test for a block device passes directories, character devices and sockets (`StatAcceptsIff`).
- A number too large for its type reads as the largest one even if what follows is no digit (`AtoiOfTooLarge`).

## Model

| member | source | states |
|---|---|---|
| Bits.Log2 | bpf/headers/bits.bpf.h:5-16 | the shift-and-or sequence computes the floor of the base-2 logarithm of every 32-bit word |
| Bits.Log2l | bpf/headers/bits.bpf.h:18-26 | and of every 64-bit word |
| Bits.HalvingStage | bpf/headers/bits.bpf.h:9-12 | one stage halves the remaining width and moves the rest of the logarithm into r without touching bits already set |
| LatencyMaps.SignedDeltaWraps | bpf/block_latency.c:78 | the signed time difference is the unsigned one modulo 2^64 |
| LatencyMaps.SlotOf | bpf/block_latency.c:101-103 | slots stay within the array |
| LatencyMaps.ClassifyOp | bpf/block_latency.c:34-43 | an operation is recognised exactly for R, W, D and F and is then a label index; `BlockCalls.Replay` states which |
| LatencyMaps.Probe.OnStart | bpf/block_latency.c:54-58 | the start handler does what the start event of the trace machine does |
| LatencyMaps.Probe.OnFinish | bpf/block_latency.c:74-105 | the completion handler, with all its early returns, does what the finish event does; a histogram that is not found even after installing it makes a completion without one |
| LatencyMaps.OnBlockIssue | bpf/block_latency.c:45-60 | an issue with an unknown operation changes nothing, others start a request |
| LatencyMaps.OnBlockComplete | bpf/block_latency.c:62-107 | a completion consumes its request's start and adds at most one sample, under its own operation |
| LatencyMaps.OnNfsInitiate | bpf/nfs_latency.c:82-102 | both initiate handlers start the request of their device, offset, count and direction |
| LatencyMaps.OnNfsDone | bpf/nfs_latency.c:46-132 | both done handlers finish that request under the same direction |
| LatencyMaps.StartMapIsPending | bpf/block_latency.c:45-79 | after any trace a key has a start exactly when its latest event is a start not consumed or evicted since, and it holds that start's time |
| LatencyMaps.MatchesIsOneToOne | bpf/block_latency.c:58-79 | with handlers taken as atomic each completion is measured from one start and each start is used by one completion |
| LatencyMaps.SampledIsHandled | bpf/block_latency.c:74-91 | the last event samples exactly when the maps say so: a pending start, no negative difference, a known operation |
| LatencyMaps.HistogramIsRecorded | bpf/block_latency.c:93-105 | after any trace, with evictions, a histogram exists exactly when samples were recorded for its key since it was last evicted, and its slots count exactly those |
| LatencyMaps.Elapsed | bpf/block_latency.c:78-82 | a time difference is not negative exactly if the later time is less than 2^63 ns on, on a clock that wraps at 2^64 |
| BlockCalls.Replay | bpf/block_latency.c:45-107 | after any handler calls and evictions the histogram of a device and of R, W, D or F as operation 0 to 3 counts exactly the completions of that letter on that device, each timed from the latest call about the same device and sector if that is an issue of a known letter |
| BlockCalls.RecordedIsLatencies | bpf/block_latency.c:45-107 | the samples a trace of these calls records are those times, in order, since the histogram was last dropped |
| NfsCalls.Replay | bpf/nfs_latency.c:37-132 | the same for NFS reads as operation 0 and writes as operation 1, each timed from the latest call about the same device, offset, count and direction |
| NfsCalls.RecordedIsLatencies | bpf/nfs_latency.c:37-132 | the samples a trace of these calls records are those times |
| Interleaving.CellsCountAdds | bpf/block_latency.c:93-105 | under any schedule each element counts exactly the adds made to it |
| Interleaving.VisibleNeverExceedsAdds | bpf/block_latency.c:93-105 | a visible slot never exceeds the adds made for it, and equals them exactly when all of them went to the element in the table |
| Interleaving.OwnersOfOneKeyRaced | bpf/block_latency.c:93-99 | without eviction two elements for one key come from two handlers that both missed it |
| Interleaving.LateMissersRaced | bpf/block_latency.c:93-99 | a handler still missing a key that has an element raced with the one that installed it |
| Interleaving.AddIsLostIff | bpf/block_latency.c:93-105 | under any schedule and any evictions an add is not visible at the end if and only if some step after its handler took its pointer installs a zero histogram for its key or evicts the key |
| Interleaving.VisibleIsCompleteIff | bpf/block_latency.c:93-105 | a visible slot counts all its adds if and only if no handler that added to it was displaced in that way |
| Interleaving.FinishedRunsCountAllIff | bpf/block_latency.c:93-105 | once all handlers have finished without eviction a slot counts every completion for it, as the atomic handlers would, if and only if none of their handlers was displaced |
| Interleaving.LostAddsNeedARace | bpf/block_latency.c:93-105 | without eviction an add is lost only if two handlers missed its key together and both installed a zero histogram for it |
| Interleaving.RaceFreeRunsLoseNothing | bpf/block_latency.c:93-105 | a run in which no two handlers miss one key together displaces nobody |
| Interleaving.ARaceLosesAnAdd | bpf/block_latency.c:94-98 | a schedule of two completions of which one stays visible |
| StartRaces.StillThereIff | bpf/block_latency.c:74-79 | under any schedule the start a completion measures from is still in the map if and only if no step since its lookup issued, deleted or evicted its request |
| StartRaces.OneToOneIff | bpf/block_latency.c:58-79 | every start is measured at most once if and only if no completion looks up a request between another's lookup and the next issue, deletion or eviction of it |
| StartRaces.SampledIsDisplaced | bpf/block_latency.c:74-79 | a completion that has deleted its request is never shared |
| StartRaces.UncutRunsAreOneToOne | bpf/block_latency.c:74-79 | a schedule in which no completion looks a request up between the lookup and the deletion of another measures every start at most once |
| StartRaces.DeletesAnotherIff | bpf/block_latency.c:79 | a completion deletes a newer start than its own if and only if its request was touched since its lookup and is in the map again |
| StartRaces.OneIssueTwoSamples | bpf/block_latency.c:74-79 | a schedule in which one issue gives two samples |
| KprobeCalls.KprobeMaps.RecordStart | bpf/nfs_kprobe_latency.c:36-45 | entering a probed function overwrites the thread's pending start |
| KprobeCalls.KprobeMaps.OnEntry | bpf/nfs_kprobe_latency.c:47-81 | each entry probe starts its own operation; both open functions start one |
| KprobeCalls.KprobeMaps.OnReturn | bpf/nfs_kprobe_latency.c:83-124 | a return consumes the thread's pending start and adds its sample, or does nothing; if no histogram is found even after installing one, the start is consumed and nothing recorded |
| KprobeCalls.PendingIsOwn | bpf/nfs_kprobe_latency.c:36-45 | a thread's pending start depends on its own probe hits alone |
| KprobeCalls.ThreadsAreIndependent | bpf/nfs_kprobe_latency.c:83-101 | whatever the interleaving of threads, each produces the samples it would produce alone |
| KprobeCalls.HistogramsCountProduced | bpf/nfs_kprobe_latency.c:110-122 | the histograms count exactly the samples produced |
| KprobeCalls.NestedCallsSampleLeaves | bpf/nfs_kprobe_latency.c:36-124 | for any tree of calls a thread's samples are its leaf calls in order, each with its own device, operation and duration |
| KprobeCalls.SamplesAreLeafCalls | bpf/nfs_kprobe_latency.c:36-124 | the same within any interleaving of threads, and nothing stays pending |
| KprobeCalls.ThreadsPartition | bpf/nfs_kprobe_latency.c:83-122 | the samples for a key are those of all threads, each as often |
| KprobeCalls.HistogramsCountLeafCalls | bpf/nfs_kprobe_latency.c:36-124 | for any interleaving of threads whose calls nest a histogram exists exactly when leaf calls were made to its operation on its device, and counts exactly those |
| KprobeCalls.ProbesCountLeafCalls | bpf/nfs_kprobe_latency.c:36-124 | the histogram of a device and operation 0, 1, 2 or 3 counts the durations of exactly the leaf calls on that device to the read, the write, the two open or the getattr function |
| KprobeCalls.AllCallsSampledIffFlat | bpf/nfs_kprobe_latency.c:36-124 | every call is sampled exactly when no probed call makes another |
| Histogram.InitSlotCeiling | pkg/ebpf/histogram.go:9-13 | the ceiling table holds 2^i microseconds in seconds |
| Histogram.MidpointsAreGeometric | pkg/ebpf/histogram.go:24-29 | the midpoint of a slot is the geometric mean of 2^(i-1) and 2^i microseconds up to rounding, half a microsecond for the first |
| Histogram.HighestSlotWithin | pkg/ebpf/histogram.go:34-40 | the search loop finds the last slot whose ceiling is within the boundary, and that is a prefix of the slots |
| Histogram.Accumulate | pkg/ebpf/histogram.go:16-31 | the first loop computes every prefix total and the count modulo 2^64, and the estimated sum |
| Histogram.SlotsToConstHistogram | pkg/ebpf/histogram.go:15-49 | one bucket for each requested boundary, holding the total of the slots whose ceiling is within it |
| EndToEnd.CountIsConserved | pkg/ebpf/histogram.go:19-22 | the exported count is the number of samples recorded |
| EndToEnd.CompletionsAreConserved | bpf/block_latency.c:74-105 | while no histogram is evicted the samples of all keys together are the completions that found a start, took no negative time and had a known operation |
| EndToEnd.SlotsAddUp | bpf/block_latency.c:93-105 | after any trace the slots of the whole map add up to the samples of its keys |
| EndToEnd.SlotsCountCompletions | bpf/block_latency.c:74-105 | so, while no histogram is evicted, the slots of the whole map add up to exactly those completions |
| EndToEnd.BucketIsCounted | pkg/ebpf/histogram.go:33-46 | the bucket of a boundary counts the samples whose slot's ceiling is within it |
| EndToEnd.SampleBounds | pkg/ebpf/histogram.go:36-44 | a sample at most b is counted at b, and one counted at b below the top ceiling is below 2b |
| EndToEnd.BucketBounds | pkg/ebpf/histogram.go:33-46 | for any samples and boundary b the bucket lies between the samples at most b and those below 2b, and is the total from the top ceiling on |
| EndToEnd.ExportedBucketBounds | pkg/ebpf/histogram.go:33-46 | so it does for every trace, and the exported count is that of its samples |
| EndToEnd.TrueLatencyBound | pkg/ebpf/histogram.go:33-46 | for boundaries from one microsecond on the bucket also counts every sample whose true latency in nanoseconds is at most the boundary |
| EndToEnd.ExportedSumBounds | pkg/ebpf/histogram.go:24-30 | for every trace 2 sum <= sqrt2 total, and sqrt2 total <= 4 sum while no sample was clamped |
| EndToEnd.ExactReadingIff | pkg/ebpf/histogram.go:9-13 | a boundary is read exactly on every block trace if and only if it lies below one microsecond, at the last microsecond of a slot, or above all recordable latencies |
| EndToEnd.DefaultBoundaryIsInexact | pkg/ebpf/histogram.go:33-46 | the 10 ms bucket counts a read of 16 ms |
| Export.ExportOne | pkg/ebpf/collector.go:139-175 | a histogram is sent exactly when it is not empty, its operation has a name, and its device belongs to an allowed namespace or, for block histograms, to none |
| Export.Collect | pkg/ebpf/collector.go:134-259 | in whatever order the map is visited, each histogram that may be sent is sent once with its own labels and buckets, and no other |
| Export.BlockKeysAreNamed | pkg/ebpf/collector.go:140-142 | every operation a block trace stores is within the label array |
| Export.BlockHistogramsAreExported | pkg/ebpf/collector.go:134-176 | with no namespace filter a histogram is exported exactly when its device and operation recorded a sample |
| Export.MetricOfSlots | pkg/ebpf/collector.go:143-161 | a metric sent for the slots of any samples, by whichever handler, has their count, and its buckets and sum within the two-sided bounds |
| Export.MetricOfTrace | pkg/ebpf/collector.go:143-161 | a metric sent for a histogram of any trace has the count of its samples, and its buckets and sum within the two-sided bounds of them |
| Export.CollectAfterTrace | pkg/ebpf/collector.go:134-176 | collecting after any block trace yields one metric for each device and operation with a sample that passes the filter, with that count and those bounds, labelled with the namespace, claim and pod of the device in the table, or with a number that parses back to it |
| Export.CollectedKey | pkg/ebpf/collector.go:134-259 | for any map of any of the three subsystems a key is sent if and only if it has samples, a named operation and a device that passes the filter, and what is then sent |
| Export.CollectAfterBlockCalls | pkg/ebpf/collector.go:134-176 | from histograms that count the block handlers' calls: for each device and letter one metric if and only if a completion was timed and the device passes the filter, labelled with the device's fields in the table or its number and with read, write, discard or flush, one bucket for each boundary, all within the bounds of those times |
| Export.CollectAfterNfsCalls | pkg/ebpf/collector.go:183-220 | the same for NFS reads and writes of known devices |
| Export.CollectBlockCalls | pkg/ebpf/collector.go:134-176 | running the handlers on any calls and then the collector gives that report |
| Export.CollectNfsCalls | pkg/ebpf/collector.go:183-220 | and so it does for NFS |
| Export.CollectAfterCalls | pkg/ebpf/collector.go:222-259 | after any interleaving of threads with nested probed calls, for each device of the table whose namespace passes the filter and each operation one metric if and only if leaf calls were made to its functions, labelled with the device's namespace, claim and pod and with read, write, open or getattr, its count, buckets and sum within the bounds of their durations |
| Export.DevToStringInjective | pkg/device/resolver.go:233-237 | two devices never print alike |
| Export.LabelsClashIff | pkg/ebpf/collector.go:148-172 | two histograms get the same labels if and only if they are of one operation on two devices with the same pod and claim in an allowed namespace |
| Export.CollectedLabelsDistinct | pkg/ebpf/collector.go:134-259 | a collection has no duplicate labels when no two devices share a pod and claim |
| Export.SharedClaimIsReachable | pkg/device/resolver.go:95-162 | mounts whose scan gives a table in which two devices share a pod and claim |
| Loader.AttachableDistinct | pkg/ebpf/loader.go:226-244 | the functions attached to are the distinct targets whose probe attaches |
| Loader.Programs.AttachAll | pkg/ebpf/loader.go:174-189 | links are made in order up to the first failure, one new resource each |
| Loader.Programs.AttachEntries | pkg/ebpf/loader.go:226-244 | only a missing optional function is skipped; the attached functions are listed in order |
| Loader.Programs.AttachKprobes | pkg/ebpf/loader.go:226-257 | on success each attached function has one entry and one return probe; on failure each link made was closed once |
| Loader.Programs.LoadNfs | pkg/ebpf/loader.go:149-195 | it succeeds exactly when every step does, holding all four links; otherwise no field changes and everything acquired was closed exactly once |
| Loader.Programs.LoadKprobe | pkg/ebpf/loader.go:197-263 | the same, with paired entry and return probes for the functions attached to |
| Loader.LoadsByName | pkg/ebpf/loader.go:163-263 | the NFS tracepoints load if and only if all four attach; the function probes if and only if read, write, open and getattr attach at entry and return, and the NFSv4 open at return if it did at entry |
| Loader.Programs.LoadBlock | pkg/ebpf/loader.go:113-147 | it succeeds exactly when both tracepoints attach; its objects and links stay recorded after a failed attach but each was closed once |
| Loader.Programs.Close | pkg/ebpf/loader.go:265-278 | each recorded link and object is closed once more, whether or not it is open |
| Loader.Programs.TryNfs | pkg/ebpf/loader.go:48-55 | an attempt either makes the subsystem active with all its resources or only requests a retry |
| Loader.NfsOutcomeSound | pkg/ebpf/loader.go:149-195 | such an attempt keeps the loader invariant: active exactly when map and objects are set, never also awaiting a retry, links open exactly while their owner is active, nothing closed or recorded twice, nothing open that is not recorded |
| Loader.KprobeOutcomeSound | pkg/ebpf/loader.go:197-263 | so does an attempt on the function probes |
| Loader.InactiveHoldsNothing | pkg/ebpf/loader.go:66-70 | with no subsystem active everything acquired was closed, exactly once |
| Loader.Programs.LoadAndAttach | pkg/ebpf/loader.go:34-73 | which subsystems are active and which await a retry; it fails exactly when block tracing alone was asked for and did not load, and then everything acquired was closed once; block is inactive with its map and objects set if and only if it was enabled, its objects loaded and a tracepoint failed to attach |
| Loader.BlockMapStaysSet | pkg/ebpf/loader.go:127-141 | an attempt after which the block map is set although block is inactive and nothing is open |
| Loader.Programs.RetryFailed | pkg/ebpf/loader.go:75-111 | over any number of ticks a subsystem awaiting a retry becomes active exactly when one of them lets it load, and the invariant holds throughout |
| Loader.ShutdownClosesOnceIff | pkg/ebpf/loader.go:265-278 | that condition on values: without it each resource ends up closed once, with it the block objects twice |
| Loader.Programs.Shutdown | pkg/ebpf/loader.go:265-278 | from any state of the invariant nothing is open afterwards, and everything was closed exactly once if and only if block does not hold the objects of a failed attach |
| Loader.Programs.LoadRetryAndShutdown | cmd/exporter/main.go:194-209 | over loading, any retries and shutdown nothing stays open and each resource is closed exactly once if and only if block did not fail to attach beside an enabled NFS subsystem |
| QmpPoll.ReachableInvariant | pkg/qmp/collector.go:369-408 | in every state of every schedule the locks, the semaphore, the results, the errors and the table match where the goroutines are |
| QmpPoll.AtMostConcurrencyScrapes | pkg/qmp/collector.go:375-392 | never more scrapes in flight than Concurrency, never two goroutines inside one lock |
| QmpPoll.NeverStuckBeforeTheEnd | pkg/qmp/collector.go:385-406 | with Concurrency at least one some goroutine can always step until all are done |
| QmpPoll.SchedulesTerminate | pkg/qmp/collector.go:385-408 | no schedule is longer than the steps its goroutines have |
| QmpPoll.OutcomeIsScheduleIndependent | pkg/qmp/collector.go:385-408 | every complete schedule ends with the same table, error count, set of results and closed connections, and all locks free |
| QmpPoll.CompletesIff | pkg/qmp/collector.go:375-408 | a poll always completes if and only if Concurrency is at least one, or zero with nothing to scrape; with a negative one no goroutine is ever started |
| QmpConnections.Collector.CloseConn | pkg/qmp/collector.go:108-115 | closing a connection closes its client the first time only |
| QmpConnections.Collector.Install | pkg/qmp/collector.go:360-366 | a dialed connection, with its pod, enters the table, or is closed when its container already has one |
| QmpConnections.Collector.Reconcile | pkg/qmp/collector.go:324-367 | afterwards the table holds the active containers that were connected or could be dialed; those that stayed kept their connection and new ones have a pod of their target |
| QmpConnections.Collector.ScrapeAll | pkg/qmp/collector.go:385-408 | failing connections are closed, removed and counted; every other yields one result, under its own pod |
| QmpConnections.PollAddsUp | pkg/qmp/collector.go:378-414 | results match the surviving connections one to one and with the errors make up the snapshot |
| QmpConnections.ConnectedIff | pkg/qmp/collector.go:324-408 | after a poll a container is connected if and only if it is a target, was connected before or could be dialed, and its scrape succeeded; a connection from before is kept |
| QmpConnections.Collector.Poll | pkg/qmp/collector.go:324-417 | that holds after each poll, also with duplicate container IDs among the targets; open clients are exactly those in the table, all of active containers; the published results are their scrapes |
| QmpConnections.Collector.CloseAll | pkg/qmp/collector.go:159-166 | the table is empty and every connection in it closed |
| QmpConnections.Collector.Run | pkg/qmp/collector.go:144-157 | after any polls and shutdown every client ever dialed has been closed exactly once |
| QmpScrape.VmConnection.ArmDevices | pkg/qmp/collector.go:504-524 | the armed set and the commands sent are those the history of tries determines |
| QmpScrape.ArmedAtMostOnce | pkg/qmp/collector.go:510-523 | over any scrapes of a connection the command succeeds at most once for a device and is never sent after the device has reported histograms |
| QmpScrape.VmConnection.LookupAll | pkg/qmp/collector.go:526-535 | labels come from the cache until it is first blank, from one fetched map afterwards; at most one fetch |
| QmpScrape.LabelsTrueIff | pkg/qmp/collector.go:526-535 | all labels of a scrape are true if and only if the cached ones it uses are and its fetch succeeds or nothing from the first blank on has a claim |
| QmpScrape.RunLabelsTrueIff | pkg/qmp/collector.go:445-455 | over any run of scrapes with unchanged claims, in any lookup order and whichever fetches fail, a scrape's labels are all true if and only if its own fetch succeeds or nothing it would fetch has a claim |
| QmpScrape.FailedFetchLosesLabels | pkg/qmp/collector.go:526-535 | a failed fetch blanks every label from the first blank on and empties the cache; the next scrape whose fetch succeeds is all true again |
| QmpScrape.VmConnection.ListVirtqueues | pkg/qmp/collector.go:554-646 | both loops list the queues the cached or queried counts give, and cache only positive counts |
| QmpScrape.CacheRefinesQuerying | pkg/qmp/collector.go:570-583 | with steady counts a scrape with the cache lists what one without it would |
| QmpScrape.CachedRunsRefineQuerying | pkg/qmp/collector.go:570-601 | so does every scrape of any run on one connection |
| QmpScrape.VmConnection.ScrapeVM | pkg/qmp/collector.go:489-656 | a scrape's result and the connection's new caches; nothing changes when block statistics cannot be read; `ResultDevices`, `ResultQueues` and `ResultClaims` say what the result holds |
| QmpResults.FirstNameIsUsed | pkg/qmp/types.go:28-36 | the name used is the first non-empty one along the backing chain, none exactly if the chain has none |
| QmpResults.ReplyIsTried | pkg/qmp/collector.go:504-524 | arming tries exactly the devices of the reply that name a disk, in order, under their device IDs |
| QmpResults.ResultDevices | pkg/qmp/collector.go:537-551 | the result has exactly the devices of the reply that name a disk and have a read histogram, in order, with their alias and statistics |
| QmpResults.ResultQueues | pkg/qmp/collector.go:553-646 | the result has exactly the answering queues below the cached or else queried count of virtio-blk devices that name a disk, then of virtio-scsi controllers below a named peripheral, in order, with disk, bus, index and status |
| QmpNames.VirtioRoundTrip | pkg/qmp/types.go:63-71 | the alias and device of a virtio disk come back from its QEMU path |
| QmpNames.FlatRoundTrip | pkg/qmp/types.go:63-71 | the alias of another disk comes back from its bare name |
| QmpNames.ExtractedIff | pkg/qmp/types.go:63-71 | a name is one of a disk if and only if it has one of the two forms |
| QmpNames.VirtioIsExtracted | pkg/qmp/types.go:13 | the first form gives the shortest alias and the device ID after the fixed part |
| QmpNames.ControllerNameIff | pkg/qmp/types.go:15 | a device is below a named peripheral if and only if its path goes on after a non-empty name |
| QmpLabels.BusDistinctIff | pkg/qmp/collector.go:561-645 | the queues listed for a bus differ in disk or index if and only if no two of its devices with one label answer for a common queue |
| QmpLabels.VirtqueueLabelsDistinctIff | pkg/qmp/collector.go:554-646 | the same for disk, bus and index over both buses of a scrape |
| QmpLabels.SameAliasLabelsDifferIff | pkg/qmp/collector.go:526-535 | one alias gets two claim labels in one scrape if and only if its lookups are on both sides of a fetch that changed its claim |
| QmpLabels.QueueLabelsDistinctIff | pkg/qmp/collector.go:593-643 | all queue labels of a scrape, the claim included, are pairwise distinct if and only if any two queues that agree in disk, bus and index are told apart in that way |
| QmpLabels.SteadyQueueLabelsDistinctIff | pkg/qmp/collector.go:593-643 | with unchanged claims they are distinct if and only if the queues are |
| QmpLabels.ResultClaims | pkg/qmp/collector.go:526-643 | every claim label of a result is the claim of its own disk if and only if all lookups gave true labels; queues of virtio-scsi controllers have none |
| QmpLabels.TwoControllersClash | pkg/qmp/collector.go:604-643 | two named virtio-scsi controllers that answer for queue 0 always repeat a label set |
| QmpLabels.WellNamedResult | pkg/qmp/collector.go:489-656 | the scrape of a VM with distinct aliases and at most one named virtio-scsi controller has distinct disks and distinct queue labels, whatever its caches hold |
| QmpLabels.ResultsOfDistinctPods | pkg/qmp/collector.go:324-414 | the results of a poll come from different active containers, hence from different pods |
| QmpLabels.LastPollDistinct | pkg/qmp/collector.go:192-231 | no two series emitted from such results have the same labels |
| QmpLabels.PollOnce | pkg/qmp/collector.go:324-417 | a poll keeps every connection with the pod its container ID identifies |
| QmpLabels.CollectAfterPolls | pkg/qmp/collector.go:185-231 | after any run of polls the results are the last poll's scrapes, each under the pod its container ID stands for, and Collect emits pairwise distinct labels, given that container IDs identify pods, a pod has one container at a time, and the VMs of the last poll have distinct aliases and at most one named virtio-scsi controller |
| QmpCollect.Collect | pkg/qmp/collector.go:185-231 | one histogram for each of read, write and flush of each device whose own histogram counts something, with that histogram, its total time in seconds and the labels of its VM and disk, and for each queue one gauge of its descriptors in use and one of its size |
| QmpCollect.LatenciesAreCounted | pkg/qmp/collector.go:200-217 | if QEMU's bins hold these latencies the histogram sent counts all of them, and its bucket for a boundary in seconds those below it |
| QmpCollect.AllLabelsDistinct | pkg/qmp/collector.go:192-231 | no two metrics of one kind carry the same labels when no two series of the results do |
| QmpCollect.PollAndCollect | pkg/qmp/collector.go:185-231 | polling and collecting gives the metrics of the last poll's scrapes, with distinct labels under those hypotheses |
| QmpBuckets.ConvertBuckets | pkg/qmp/collector.go:234-246 | each boundary gets the running total up to its bin, the count is the total of all bins |
| QmpBuckets.BucketsCountSamples | pkg/qmp/collector.go:234-246 | on QEMU's bins of any samples the bucket of a boundary is the number of samples below it and the count is all of them |
| QmpBuckets.ExactIffNoneOnBoundary | pkg/qmp/collector.go:234-246 | a bucket has its documented meaning if and only if no sample lies on its boundary |
| QgaRetry.VmState.HandleScrapeError | pkg/qga/collector.go:340-363 | a blacklist error stops the VM, any other error counts and stops it at the limit |
| QgaRetry.VmState.Poll | pkg/qga/collector.go:298-326 | a stopped VM is skipped; a success resets the count |
| QgaRetry.StatusIsHistory | pkg/qga/collector.go:298-363 | over any outcomes a VM is stopped exactly from the first blacklist error or run of failures of the limit's length on, its count is otherwise its trailing failures, and it was scraped up to then and not after |
| QgaRetry.StoppedIsAbsorbing | pkg/qga/collector.go:298-305 | whatever would come later changes neither its status nor the number of scrapes |
| QgaRetry.HopelessVmsAreDropped | pkg/qga/collector.go:340-363 | a VM that never succeeds is scraped at most max(1, MaxRetries) times |
| QgaRetry.VmsAreIndependent | pkg/qga/collector.go:180-338 | over any polls a VM's status is that of its own outcomes since it last arrived |
| QgaMetrics.ThroughputLaw | pkg/qga/types.go:145-164 | exported IOPS times elapsed time is the counted operations |
| QgaMetrics.LittlesLaw | pkg/qga/types.go:126-164 | exported latency times IOPS is the mean queue depth on every interval with operations |
| QgaMetrics.MetricsAreInSeconds | pkg/qga/types.go:145-164 | elapsed time times ten million is the ticks, latency times operations times ten million the queue difference and IOPS times ticks ten million times the operations, for reads and writes, all zero without operations or without time |
| QgaMetrics.LastPollWork | pkg/qga/collector.go:377-424 | a poll accounts for the operations since the latest successful one, a failed poll for none |
| QgaMetrics.RatesAccountForAllOperations | pkg/qga/collector.go:377-424 | over any run with failures in between the exported rates add up to the last counter minus the first |
| QgaMetrics.DeltaTrueIffNoWrap | pkg/qga/types.go:133-164 | the difference of a 32-bit counter is true if and only if it did not wrap |
| QgaMetrics.WrapIsExportedAsHuge | pkg/qga/types.go:153-161 | one operation across the wrap is exported as more than 2^63 |
| QgaMetrics.VmSnapshots.Scrape | pkg/qga/collector.go:377-399 | the disks exported and the snapshot kept are those the history of polls determines |
| QgaMetrics.ExportedIff | pkg/qga/collector.go:386-399 | a disk is exported if and only if this poll and the latest successful one before have it and its guest clock advanced, with the numbers of that interval |
| QgaMetrics.SnapshotHasRows | pkg/qga/collector.go:377-379 | a snapshot has the disks of its rows |
| QgaMetrics.LastRowIsKept | pkg/qga/collector.go:377-379 | each with the last row of its name |
| QgaDisks.DiskIndexRoundTrip | pkg/qga/diskmap.go:53-63 | the index comes back from a Windows disk name |
| QgaDisks.VmDisks.NameAll | pkg/qga/collector.go:400-411 | in whatever order the disks are visited each is named by its index and labelled by its own lookup, and a fetch is made, once, exactly when some looked-up volume has no cached claim |
| QgaDisks.NamedAt | pkg/qga/collector.go:400-411 | the i-th exported disk has the i-th name, its volume and the label of its own lookup, or blanks |
| QgaDisks.DisksNamedTrulyIff | pkg/qga/collector.go:400-411 | every disk is exported under its own name, volume and claim, or with blanks when it has no volume, if and only if the labels of the scrape's lookups are all true |
| QgaDisks.DriveIsExported | pkg/qga/collector.go:400-411 | the drive reported at the place a disk's address strings print is exported under that disk's volume, and under its claim when the scrape's labels are true |
| QgaCollect.ScrapeVm | pkg/qga/collector.go:365-430 | a scrape returns exactly the disks whose clock advanced since the latest successful poll, each once, with the numbers of that interval and the names and claims of its lookups |
| QgaCollect.Collect | pkg/qga/collector.go:128-160 | a latency and a rate for each direction of each disk that has either, with the numbers of that direction and the labels of its VM, disk and drive |
| QgaCollect.ScrapedDrivesDiffer | pkg/qga/collector.go:376-411 | the disks of a scrape have different drive names |
| QgaCollect.GaugeLabelsDistinct | pkg/qga/collector.go:128-160 | so no two gauges of one kind carry the same labels when VMs have different pods |
| WmiCsv.ParseWmiCsv | pkg/qga/types.go:54-124 | reading the records gives the rows that are long enough and named, or the error of the first bad number, missing column or empty result |
| WmiCsv.ReadIsHeld | pkg/qga/types.go:69-117 | the counters read from a row are the numbers in the columns of their own names, under a name that is neither blank nor the total |
| WmiCsv.HeldIsRead | pkg/qga/types.go:69-117 | and a row that holds them there is read so |
| WmiCsv.BadRowIff | pkg/qga/types.go:83-107 | a row that is long enough is bad if and only if it is named and one of its five counters is no number |
| WmiCsv.BadNumberIff | pkg/qga/types.go:88-107 | the whole table fails if and only if a row is bad |
| WmiCsv.RowsAreRead | pkg/qga/types.go:76-123 | otherwise its counters are those of exactly the rows that give any, in order, and it fails when there are none |
| WmiCsv.PrintRowPrints | pkg/qga/types.go:29-36 | printing counters under a header puts each field in its column, wherever that is |
| WmiCsv.PrintedCountersReadBack | pkg/qga/types.go:41-124 | counters printed under any header with the required columns, in any order, with further columns and total rows, are read back in order |
| WmiCsv.ColumnIsLast | pkg/qga/types.go:58-61 | a column is found at the last occurrence of its name |
| WmiCsv.TruncatedRow | pkg/qga/types.go:78-81 | a row cut short is read like the whole one if all required columns are left, and skipped otherwise |
| WmiCsv.ColumnMoves | pkg/qga/types.go:58-67 | a permuted header has the same columns, each found at the new place of one of its occurrences |
| WmiCsv.RowIsOrderFreeIff | pkg/qga/types.go:58-81 | the required cells read from a row at least as long as its header are the same in every order of the columns if and only if no required column is repeated with different cells |
| WmiCsv.ColumnOrderIsIrrelevant | pkg/qga/types.go:38-124 | any order of the columns gives the same counters or the same error when no row is shorter than the header or repeats a required column with different cells |
| WmiCsv.ColumnOrderCanMatter | pkg/qga/types.go:58-67 | a table with two name columns that is read as two different disks in two column orders |
| GoText.ScanOfDecimal | pkg/device/resolver.go:236 | a printed number reads back exactly when it is below the limit |
| GoText.AtoiOfTooLarge | pkg/qmp/types.go:257-259 | a number beyond 64 bits yields the largest integer whatever follows it |
| GoText.AtoiOfSigned | pkg/device/procmounts.go:47-51 | signed numbers read back down to the smallest integer |
| GoText.AtoiOfBad | pkg/qga/diskmap.go:58 | a number followed by anything but a digit is none |
| GoText.TrimSpaceOf | pkg/qga/types.go:60 | trimming takes off exactly the white space around |
| GoText.EqualFoldIff | pkg/qga/types.go:84 | texts fold to one if and only if they differ in nothing but the case of letters |
| GoText.ScanOfHexadecimal | pkg/qmp/types.go:294-306 | a number printed in hexadecimal reads back exactly when it is below the limit |
| DeviceNumbers.MkDevArithmetic | pkg/device/resolver.go:229-231 | with a minor number in range the key is the major number modulo 4096 above 20 bits of minor number |
| DeviceNumbers.PartsOfMkDevIff | pkg/device/resolver.go:229-237 | both numbers come back from the key if and only if they fit 12 and 20 bits |
| DeviceNumbers.MkDevOfParts | pkg/device/resolver.go:229-237 | every key is made of its own parts |
| DeviceNumbers.MkDevInjective | pkg/device/resolver.go:229-231 | in range different devices have different keys |
| DeviceNumbers.StatAgreesWithKernel | pkg/device/resolver.go:221-226 | decoding Linux's user-space encoding of a device gives its major and minor numbers, for all that fit |
| DeviceNumbers.PrintedDeviceRoundTrip | pkg/device/resolver.go:233-237 | every printed device parses, as a mountinfo field does, to numbers with the same key |
| DeviceNumbers.WideMinorsCollide | pkg/device/resolver.go:229-231 | a minor number out of range shares its key with another device |
| VolumePaths.VolumePathMatches | pkg/device/resolver.go:16-20 | every path of the volume pattern is parsed to its pod and volume |
| VolumePaths.MatchedVolumePath | pkg/device/resolver.go:199-204 | and only those are |
| VolumePaths.BlockPathMatches | pkg/device/resolver.go:21-24 | every path of the block pattern is parsed to its pod and volume |
| VolumePaths.MatchedBlockPath | pkg/device/resolver.go:206-211 | and only those are |
| VolumePaths.MountSuffixUnambiguous | pkg/device/resolver.go:17-20 | the optional suffix leaves one way to match |
| VolumePaths.KindsAreExclusive | pkg/device/resolver.go:108-115 | no path matches both patterns, so their order does not matter |
| VolumePaths.UuidIff | pkg/device/resolver.go:16-24 | a pod's UID is five groups of 8, 4, 4, 4 and 12 lower-case hexadecimal digits |
| Resolver.ParseMountInfoLine | pkg/device/procmounts.go:41-90 | the loop finds the first separator from the seventh field on; short lines, bad numbers and missing fields are errors |
| Resolver.ParseMountInfo | pkg/device/procmounts.go:22-39 | the lines that parse, in order |
| Resolver.EntryIff | pkg/device/procmounts.go:41-90 | a line is an entry if and only if its IDs and device parse and two fields follow the first dash from the seventh field on; the entry is made of these fields |
| Resolver.EntryRoundTrip | pkg/device/procmounts.go:41-90 | a printed mount parses back, whatever its options and number of optional fields |
| Resolver.PodMetaMap | pkg/device/resolver.go:169-182 | the last pod listed under a UID |
| Resolver.ResolveEntry | pkg/device/resolver.go:107-143 | what one mount contributes: nothing if it is no volume, cannot be examined, or its pod is unknown |
| Resolver.DeviceTable.Scan | pkg/device/resolver.go:95-162 | for every device number, Lookup then gives the last mount that resolves to it; a failed read changes nothing |
| Tables.LastForIsLast | pkg/device/resolver.go:105-145 | the entry kept for a key is that of the last contribution and there is none exactly if nothing contributes |
| Resolver.MountedVolumeResolves | pkg/device/resolver.go:107-145 | a mounted filesystem volume resolves, under its kernel device number, to its claim and pod exactly when the pod is known |
| Resolver.ClaimIsFirstBound | pkg/device/resolver.go:184-197 | a volume is named by the first claim bound to it, by itself if there is none |
| Resolver.BlockVolumeResolves | pkg/device/resolver.go:119-127 | a block-mode volume resolves under the number of the device it exposes |
| Resolver.StatAcceptsIff | pkg/device/resolver.go:213-227 | a file passes for a block device if and only if it is neither a regular file nor a pipe |
| Resolver.PrintedVolumeIsFound | pkg/device/resolver.go:95-162 | from mountinfo text: the line of a known pod's volume makes its device found, with that volume's description unless another mount claims the device |
| DiskJoin.VolumeOfIff | pkg/qmp/types.go:231-234 | a disk names a volume if and only if its alias is the user prefix and a non-empty name |
| DiskJoin.Locate | pkg/qmp/types.go:236-266 | a disk's place is its PCI address or its controller's, with bus, target and unit |
| DiskJoin.PciReadsBack | pkg/qmp/types.go:293-310 | domain, bus, slot and function printed in hexadecimal, with any leading zeros, read back each from its own string, for all numbers below 2^31 |
| DiskJoin.PlaceIsLocated | pkg/qmp/types.go:236-266 | a disk is located at the PCI address its strings print, or at its printed bus, target and unit on the last controller of its bus and index |
| DiskJoin.PlaceIsAtPci | pkg/qmp/types.go:214-266 | and nowhere but at its own PCI address or on such a controller that has one |
| DiskJoin.ParseDiskLocations | pkg/qmp/types.go:206-269 | the volume of the last disk at each place |
| DiskJoin.ParseDiskSerials | pkg/qmp/types.go:273-291 | the volume of the last disk with each serial number |
| DiskJoin.ParseDiskAddresses | pkg/qmp/types.go:174-200 | the volume of the last PCI disk at each address |
| DiskJoin.BuildDiskMapping | pkg/qga/diskmap.go:19-49 | for each drive index the last volume found by place, else the first found by serial number, else none |
| Tables.FirstForIsFirst | pkg/qga/diskmap.go:35-45 | skipping indices already mapped keeps the first volume found by serial number |
| DiskJoin.DriveGetsItsVolume | pkg/qga/diskmap.go:25-30 | a drive reported at the place a disk's address strings print gets that disk's volume, whatever its serial number |
| DiskJoin.DriveFoundBySerial | pkg/qga/diskmap.go:33-46 | a drive reported at no disk's place gets the volume of the last disk with its serial number |
| DiskJoin.NamesComeFromDisks | pkg/qga/diskmap.go:19-49 | every mapped name is the volume of a disk at whose place, or with whose serial number, the drive was reported |
| DiskJoin.LocationsExtendAddresses | pkg/qmp/types.go:174-269 | both parsers agree at every PCI address where no drive-addressed disk sits |

## Left out

- libvirt, gRPC, Kubernetes and guest-agent transport (`pkg/qmp/client.go`, `pkg/qmp/cri.go`, `pkg/qga/client.go`): their outcomes are inputs.
- JSON, XML and CSV decoding, and the regular expression engine: the models start from decoded records, and from what the two path patterns and the disk name patterns mean.
- Rounding of float64: `real` is exact; the constant sqrt2 is Go's.
- Tickers and time-outs: polls, scans and retries are sequences of any length.
- The kernel's choice of entries to evict: traces may evict any entry at any time.
- Evictions and refused installs in the function probes' maps: the lemmas of `KprobeCalls` over runs are stated without them, `OnReturn` with the latter. The counters of `Interleaving` do not wrap.
- Reuse of a deleted start's memory while a handler still reads it: `StartRaces` lets such a handler measure from the start it found.
- Unicode: `GoText` is ASCII, which covers the numbers, paths and names parsed here.
- Pod discovery and label filters at the start of a poll: a poll starts from its targets, and what is proved holds for every list of targets.
- Goroutines of the guest agent poll: one VM's outcome touches only that VM's state, so it is modelled per VM; the semaphore pattern is that of the QMP poll.
- Closing eBPF programs while a retry runs: `Shutdown` follows the last tick.
- Subsystem gauges, the error counter and poll time each collector sends of itself, metric descriptions, logging, flags and the HTTP server.
- QmpConnections.Collector.ScrapeAll: runs a poll's goroutines one after the other in any order; `QmpPoll.OutcomeIsScheduleIndependent` shows the order makes no difference.
- QmpConnections.Collector.Poll: container IDs are natural numbers, since they are only compared.
- WmiCsv.ColumnOrderIsIrrelevant: is not stated for rows shorter than the header or with disagreeing repeats, where the order can matter; `TruncatedRow` and `RowIsOrderFreeIff` say when.
- Resolver.PodMetaMap: a nil pod store is the empty list.

/** pkg/ebpf/collector.go: turning the kernel's histogram maps into metrics, one per device and operation. */
module Export {
  import BlockCalls
  import NfsCalls
  import opened Bits
  import opened DeviceNumbers
  import opened EndToEnd
  import opened Histogram
  import opened KprobeCalls
  import opened LatencyMaps
  import opened Resolver
  import opened Seqs
  import opened Tables
  import opened VolumePaths

  /** Which of the three collect functions runs, by the histogram map it reads. */
  datatype Source = BlockHists | NfsHists | NfsKprobeHists

  /** Label values, without the node's name. */
  datatype Labels =
    | OfPod(namespace: string, pvc: string, pod: string, op: string)
    | OfSystem(dev: string, op: string)

  datatype Metric = Metric(labels: Labels, count: u64, sum: real, buckets: map<real, u64>)

  /** The largest operation a map's label array has a name for. */
  function LastOp(source: Source): nat { if source.NfsHists? then 1 else 3 }

  function OpLabel(source: Source, op: nat): string {
    match op
    case 0 => "read"
    case 1 => "write"
    case 2 => if source.NfsKprobeHists? then "open" else "discard"
    case _ => if source.NfsKprobeHists? then "getattr" else "flush"
  }

  predicate NamespaceAllowed(namespaces: set<string>, ns: string) { namespaces == {} || ns in namespaces }

  function LabelsFor(source: Source, devices: map<nat, DeviceInfo>, namespaces: set<string>,
                     k: HistKey): Option<Labels> {
    if k.op > LastOp(source) then None
    else
      match Get(devices, k.dev)
      case Some(info) =>
        if NamespaceAllowed(namespaces, info.namespace)
        then Some(OfPod(info.namespace, info.pvc, info.pod, OpLabel(source, k.op)))
        else None
      case None => if source.BlockHists? then Some(OfSystem(DevToString(k.dev), OpLabel(source, k.op))) else None
  }

  /** A metric of these slots: its count, its estimated sum and its cumulative buckets. */
  ghost predicate Reports(m: Metric, slots: Slots, bounds: seq<real>) {
    && m.count == SampleCount(slots) % TWO_64 && m.sum == SumSeconds(slots)
    && m.buckets.Keys == (set b | b in bounds)
    && forall b :: b in m.buckets ==> m.buckets[b] == BucketTotal(slots, b) % TWO_64
  }

  ghost predicate Exportable(
      source: Source, hists: map<HistKey, Slots>, devices: map<nat, DeviceInfo>, namespaces: set<string>, k: HistKey)
  {
    k in hists && SampleCount(hists[k]) % TWO_64 != 0 && LabelsFor(source, devices, namespaces, k).Some?
  }

  /** keys are the histograms behind the metrics, in the order they were sent: each once, and all that are
      exportable among those visited. */
  ghost predicate IsExport(
      source: Source, hists: map<HistKey, Slots>, visited: set<HistKey>, devices: map<nat, DeviceInfo>,
      namespaces: set<string>,
      bounds: seq<real>, out: seq<Metric>, keys: seq<HistKey>)
  {
    && |keys| == |out| && AllDistinct(keys)
    && (forall k :: k in keys <==> k in visited && Exportable(source, hists, devices, namespaces, k))
    && forall i :: 0 <= i < |out| ==> Sent(source, hists, devices, namespaces, bounds, out[i], keys[i])
  }

  ghost predicate Sent(
      source: Source, hists: map<HistKey, Slots>, devices: map<nat, DeviceInfo>, namespaces: set<string>,
      bounds: seq<real>, m: Metric, k: HistKey)
  {
    k in hists && LabelsFor(source, devices, namespaces, k) == Some(m.labels) && Reports(m, hists[k], bounds)
  }

  /** The body of the loop: what is sent for one histogram. */
  method ExportOne(
      source: Source, ceiling: array<real>, hists: map<HistKey, Slots>, devices: map<nat, DeviceInfo>,
      namespaces: set<string>,
      bounds: seq<real>, k: HistKey)
    returns (r: Option<Metric>)
    requires ceiling.Length == MAX_SLOTS && forall i :: 0 <= i < MAX_SLOTS ==> ceiling[i] == SlotCeiling(i)
    requires k in hists
    ensures r.Some? <==> Exportable(source, hists, devices, namespaces, k)
    ensures r.Some? ==> Sent(source, hists, devices, namespaces, bounds, r.value, k)
  {
    if k.op > LastOp(source) {
      return None;
    }
    var count, sum, buckets := SlotsToConstHistogram(ceiling, hists[k], bounds);
    if count == 0 {
      return None;
    }
    if k.dev in devices {
      var info := devices[k.dev];
      if !NamespaceAllowed(namespaces, info.namespace) {
        return None;
      }
      return Some(Metric(OfPod(info.namespace, info.pvc, info.pod, OpLabel(source, k.op)), count, sum, buckets));
    }
    if !source.BlockHists? {
      return None;
    }
    r := Some(Metric(OfSystem(DevToString(k.dev), OpLabel(source, k.op)), count, sum, buckets));
  }

  /** The maps are iterated in no particular order. */
  method Collect(
      source: Source, ceiling: array<real>, hists: map<HistKey, Slots>, devices: map<nat, DeviceInfo>,
      namespaces: set<string>,
      bounds: seq<real>)
    returns (out: seq<Metric>, ghost keys: seq<HistKey>)
    requires ceiling.Length == MAX_SLOTS && forall i :: 0 <= i < MAX_SLOTS ==> ceiling[i] == SlotCeiling(i)
    ensures IsExport(source, hists, hists.Keys, devices, namespaces, bounds, out, keys)
    ensures |out| == |ExportableKeys(source, hists, devices, namespaces)|
    ensures forall m :: m in out ==> exists k :: k in hists && Sent(source, hists, devices, namespaces, bounds, m, k)
  {
    out, keys := [], [];
    var left := hists.Keys;
    while left != {}
      invariant left <= hists.Keys && IsExport(source, hists, hists.Keys - left, devices, namespaces, bounds, out, keys)
      decreases |left|
    {
      var k :| k in left;
      var m := ExportOne(source, ceiling, hists, devices, namespaces, bounds, k);
      ghost var visited := hists.Keys - left;
      OneMoreExport(source, hists, visited, devices, namespaces, bounds, out, keys, k, m);
      left := left - {k};
      assert hists.Keys - left == visited + {k};
      if m.Some? {
        out, keys := out + [m.value], keys + [k];
      }
    }
    assert hists.Keys - left == hists.Keys;
    KeysAreExportable(source, hists, devices, namespaces, bounds, out, keys);
  }

  ghost function ExportableKeys(
      source: Source, hists: map<HistKey, Slots>, devices: map<nat, DeviceInfo>, namespaces: set<string>): set<HistKey>
  {
    set k | k in hists && Exportable(source, hists, devices, namespaces, k)
  }

  lemma KeysAreExportable(
      source: Source, hists: map<HistKey, Slots>, devices: map<nat, DeviceInfo>, namespaces: set<string>,
      bounds: seq<real>, out: seq<Metric>, keys: seq<HistKey>)
    requires IsExport(source, hists, hists.Keys, devices, namespaces, bounds, out, keys)
    ensures |out| == |ExportableKeys(source, hists, devices, namespaces)|
    ensures forall m :: m in out ==> exists k :: k in hists && Sent(source, hists, devices, namespaces, bounds, m, k)
  {
    assert ExportableKeys(source, hists, devices, namespaces) == set k | k in keys;
    DistinctSize(keys);
  }

  lemma OneMoreExport(
      source: Source, hists: map<HistKey, Slots>, visited: set<HistKey>, devices: map<nat, DeviceInfo>,
      namespaces: set<string>,
      bounds: seq<real>, out: seq<Metric>, keys: seq<HistKey>, k: HistKey, m: Option<Metric>)
    requires IsExport(source, hists, visited, devices, namespaces, bounds, out, keys) && k !in visited && k in hists
    requires m.Some? <==> Exportable(source, hists, devices, namespaces, k)
    requires m.Some? ==> Sent(source, hists, devices, namespaces, bounds, m.value, k)
    ensures m.None? ==> IsExport(source, hists, visited + {k}, devices, namespaces, bounds, out, keys)
    ensures m.Some? ==> IsExport(source, hists, visited + {k}, devices, namespaces, bounds, out + [m.value], keys + [k])
  {
    assert k !in keys;
    assert forall i :: 0 <= i < |keys| ==> keys[i] in keys;
  }

  // ---- Every histogram of a block trace is exported ----

  lemma {:induction false} BlockKeysAreNamed(t: seq<Event<BlockReq>>)
    requires IsBlockTrace(t)
    ensures forall k :: k in Run(t).hists ==> k.op <= LastOp(BlockHists)
  {
    if t != [] {
      BlockKeysAreNamed(t[..|t| - 1]);
      assert IsBlockEvent(t[|t| - 1]);
    }
  }

  lemma StoredCount<K(!new)>(t: seq<Event<K>>, k: HistKey)
    requires |Recorded(t, k)| < TWO_64
    ensures k in Run(t).hists <==> Recorded(t, k) != []
    ensures k in Run(t).hists ==> SampleCount(Run(t).hists[k]) == |Recorded(t, k)|
  {
    HistogramIsRecorded(t, k);
    CountIsConserved(Recorded(t, k));
  }

  /** With no namespace filter, every histogram a block trace leaves in the map is exported, and counts every
      sample recorded for its device and operation. */
  lemma BlockHistogramsAreExported(t: seq<Event<BlockReq>>, devices: map<nat, DeviceInfo>, k: HistKey)
    requires IsBlockTrace(t) && |Recorded(t, k)| < TWO_64
    ensures Exportable(BlockHists, Run(t).hists, devices, {}, k) <==> Recorded(t, k) != []
    ensures k in Run(t).hists ==> SampleCount(Run(t).hists[k]) % TWO_64 == |Recorded(t, k)|
  {
    StoredCount(t, k);
    BlockKeysAreNamed(t);
    ExportedWhenNamed(Run(t).hists, devices, k, |Recorded(t, k)|);
  }

  lemma ExportedWhenNamed(hists: map<HistKey, Slots>, devices: map<nat, DeviceInfo>, k: HistKey, n: nat)
    requires k in hists ==> k.op <= LastOp(BlockHists) && SampleCount(hists[k]) == n && 0 < n < TWO_64
    ensures Exportable(BlockHists, hists, devices, {}, k) <==> k in hists
    ensures k in hists ==> SampleCount(hists[k]) % TWO_64 == n
  {
  }

  /** What a metric says about the samples recorded for its device and operation: their number, and for each
      bucket and the sum the two-sided bounds of the estimate. */
  ghost predicate Bounds(m: Metric, ds: seq<nat>) {
    && m.count == |ds|
    && (forall b :: b in m.buckets ==> BucketWithin(m.buckets[b], ds, b))
    && SumWithin(m.sum, ds)
  }

  lemma MetricOfSlots(ds: seq<nat>, m: Metric, bounds: seq<real>)
    requires |ds| < TWO_64 && Reports(m, SlotCounts(ds), bounds)
    ensures Bounds(m, ds)
  {
    CountIsConserved(ds);
    SmallModulo(|ds|);
    EstimateBounds(ds);
    forall b | b in m.buckets ensures BucketWithin(m.buckets[b], ds, b) {
      BucketBounds(ds, b);
      SmallModulo(BucketTotal(SlotCounts(ds), b));
    }
  }

  lemma MetricOfTrace<K(!new)>(t: seq<Event<K>>, k: HistKey, m: Metric, bounds: seq<real>)
    requires k in Run(t).hists && |Recorded(t, k)| < TWO_64 && Reports(m, Run(t).hists[k], bounds)
    ensures Bounds(m, Recorded(t, k))
  {
    HistogramIsRecorded(t, k);
    MetricOfSlots(Recorded(t, k), m, bounds);
  }

  // ---- What a collection says, on the samples and the table of devices ----

  /** The filter lets this device's metrics through: a known device by its namespace, another as the system's if it
      is a block device. */
  ghost predicate Passes(source: Source, devices: map<nat, DeviceInfo>, namespaces: set<string>, dev: nat) {
    if dev in devices then namespaces == {} || devices[dev].namespace in namespaces else source == BlockHists
  }

  /** The metric is labelled with the namespace, claim and pod of the device, or else with its number. */
  ghost predicate NamesDevice(m: Metric, devices: map<nat, DeviceInfo>, dev: nat) {
    if dev in devices then
      && m.labels.OfPod? && m.labels.namespace == devices[dev].namespace
      && m.labels.pvc == devices[dev].pvc && m.labels.pod == devices[dev].pod
    else
      && m.labels.OfSystem? && ParseDevice(m.labels.dev).Some?
      && var number := ParseDevice(m.labels.dev).value; MkDev(number.0, number.1) == dev
  }

  /** A map in which these are the samples of a key; an empty histogram may also be missing. */
  ghost predicate Holds(hists: map<HistKey, Slots>, k: HistKey, ds: seq<nat>) {
    (if k in hists then hists[k] == SlotCounts(ds) else ds == []) && |ds| < TWO_64
  }

  lemma ExportedIff(source: Source, hists: map<HistKey, Slots>, devices: map<nat, DeviceInfo>,
                    namespaces: set<string>, k: HistKey, ds: seq<nat>)
    requires Holds(hists, k, ds)
    ensures Exportable(source, hists, devices, namespaces, k) <==>
      ds != [] && k.op <= (if source == NfsHists then 1 else 3) && Passes(source, devices, namespaces, k.dev)
  {
    CountIsConserved(ds);
    SmallModulo(|ds|);
  }

  lemma SentNames(source: Source, hists: map<HistKey, Slots>, devices: map<nat, DeviceInfo>,
                  namespaces: set<string>, bounds: seq<real>, m: Metric, k: HistKey)
    requires Sent(source, hists, devices, namespaces, bounds, m, k)
    ensures NamesDevice(m, devices, k.dev) && m.labels.op == OpLabel(source, k.op)
    ensures m.buckets.Keys == set b | b in bounds
  {
    PrintedDeviceRoundTrip(k.dev);
  }

  lemma SentBounds(source: Source, hists: map<HistKey, Slots>, devices: map<nat, DeviceInfo>,
                   namespaces: set<string>, bounds: seq<real>, m: Metric, k: HistKey, ds: seq<nat>)
    requires Sent(source, hists, devices, namespaces, bounds, m, k) && Holds(hists, k, ds)
    ensures Bounds(m, ds)
  {
    MetricOfSlots(ds, m, bounds);
  }

  /** The i-th metric sent is about these samples of this device, labelled with this operation. */
  ghost predicate Tells(m: Metric, devices: map<nat, DeviceInfo>, bounds: seq<real>, dev: nat, op: string,
                        ds: seq<nat>)
  {
    NamesDevice(m, devices, dev) && m.labels.op == op && (m.buckets.Keys == set b | b in bounds) && Bounds(m, ds)
  }

  /** One key of a collection: it is sent exactly when it has samples and passes, and what is then sent. */
  lemma CollectedKey(
      source: Source, hists: map<HistKey, Slots>, devices: map<nat, DeviceInfo>, namespaces: set<string>,
      bounds: seq<real>, out: seq<Metric>, keys: seq<HistKey>, k: HistKey, ds: seq<nat>)
    requires IsExport(source, hists, hists.Keys, devices, namespaces, bounds, out, keys) && Holds(hists, k, ds)
    ensures k in keys <==>
      ds != [] && k.op <= (if source == NfsHists then 1 else 3) && Passes(source, devices, namespaces, k.dev)
    ensures forall i :: 0 <= i < |out| && keys[i] == k ==>
      Tells(out[i], devices, bounds, k.dev, OpLabel(source, k.op), ds)
  {
    ExportedIff(source, hists, devices, namespaces, k, ds);
    assert Exportable(source, hists, devices, namespaces, k) ==> k in hists.Keys;
    forall i | 0 <= i < |out| && keys[i] == k ensures Tells(out[i], devices, bounds, k.dev, OpLabel(source, k.op), ds) {
      assert Sent(source, hists, devices, namespaces, bounds, out[i], keys[i]);
      SentNames(source, hists, devices, namespaces, bounds, out[i], k);
      SentBounds(source, hists, devices, namespaces, bounds, out[i], k, ds);
    }
  }

  /** Collecting after any block trace: one metric for each device and operation that recorded a sample and passes
      the filter, labelled with that device's pod or its number, whose count, buckets and sum are within their
      bounds of those samples. */
  lemma CollectAfterTrace(
      t: seq<Event<BlockReq>>, devices: map<nat, DeviceInfo>, namespaces: set<string>, bounds: seq<real>,
      out: seq<Metric>, keys: seq<HistKey>)
    requires IsBlockTrace(t) && forall k :: |Recorded(t, k)| < TWO_64
    requires IsExport(BlockHists, Run(t).hists, Run(t).hists.Keys, devices, namespaces, bounds, out, keys)
    ensures forall k :: k in keys <==> Recorded(t, k) != [] && Passes(BlockHists, devices, namespaces, k.dev)
    ensures forall i :: 0 <= i < |out| ==>
      Bounds(out[i], Recorded(t, keys[i])) && NamesDevice(out[i], devices, keys[i].dev)
  {
    BlockKeysAreNamed(t);
    forall k ensures k in keys <==> Recorded(t, k) != [] && Passes(BlockHists, devices, namespaces, k.dev) {
      HistogramIsRecorded(t, k);
      CollectedKey(BlockHists, Run(t).hists, devices, namespaces, bounds, out, keys, k, Recorded(t, k));
    }
    forall i | 0 <= i < |out|
      ensures Bounds(out[i], Recorded(t, keys[i])) && NamesDevice(out[i], devices, keys[i].dev)
    {
      HistogramIsRecorded(t, keys[i]);
      CollectedKey(BlockHists, Run(t).hists, devices, namespaces, bounds, out, keys, keys[i], Recorded(t, keys[i]));
    }
  }

  // ---- From handler calls to metrics ----

  /** The name of the operation a block request's letter stands for. */
  function LetterName(rw: char): string {
    match rw
    case 'R' => "read"
    case 'W' => "write"
    case 'D' => "discard"
    case _ => "flush"
  }

  /** For each device and operation letter one metric if and only if a completion was measured and the device passes
      the filter, labelled with that device's pod or its number and the letter's name, whose count, buckets and sum
      are within their bounds of those latencies. */
  ghost predicate BlockReport(cs: seq<BlockCalls.Call>, devices: map<nat, DeviceInfo>, namespaces: set<string>,
                              bounds: seq<real>, out: seq<Metric>, keys: seq<HistKey>)
  {
    && AllDistinct(keys) && |keys| == |out| && (forall i :: 0 <= i < |keys| ==> keys[i].op <= 3)
    && (forall dev: u32, rw, op :: BlockCalls.IsOp(rw, op) ==>
          (HistKey(dev, op) in keys <==>
             BlockCalls.Latencies(cs, dev, rw, op) != [] && Passes(BlockHists, devices, namespaces, dev)))
    && (forall i, rw :: 0 <= i < |out| && BlockCalls.IsOp(rw, keys[i].op) ==>
          Tells(out[i], devices, bounds, keys[i].dev, LetterName(rw),
                BlockCalls.Latencies(cs, keys[i].dev, rw, keys[i].op)))
  }

  /** Every collection from histograms that count the calls of the block handlers is such a report. */
  lemma CollectAfterBlockCalls(
      cs: seq<BlockCalls.Call>, hists: map<HistKey, Slots>, devices: map<nat, DeviceInfo>, namespaces: set<string>,
      bounds: seq<real>, out: seq<Metric>, keys: seq<HistKey>)
    requires BlockCalls.Counts(hists, cs)
    requires forall dev: u32, rw, op :: |BlockCalls.Latencies(cs, dev, rw, op)| < TWO_64
    requires IsExport(BlockHists, hists, hists.Keys, devices, namespaces, bounds, out, keys)
    ensures BlockReport(cs, devices, namespaces, bounds, out, keys)
  {
    forall i | 0 <= i < |keys| ensures keys[i].op <= 3 { assert keys[i] in keys; }
    forall dev: u32, rw, op | BlockCalls.IsOp(rw, op)
      ensures HistKey(dev, op) in keys <==>
        BlockCalls.Latencies(cs, dev, rw, op) != [] && Passes(BlockHists, devices, namespaces, dev)
    {
      CollectedLetter(cs, hists, devices, namespaces, bounds, out, keys, dev, rw, op);
    }
    forall i, rw | 0 <= i < |out| && BlockCalls.IsOp(rw, keys[i].op)
      ensures Tells(out[i], devices, bounds, keys[i].dev, LetterName(rw),
                    BlockCalls.Latencies(cs, keys[i].dev, rw, keys[i].op))
    {
      CollectedLetter(cs, hists, devices, namespaces, bounds, out, keys, keys[i].dev, rw, keys[i].op);
    }
  }

  lemma CollectedLetter(
      cs: seq<BlockCalls.Call>, hists: map<HistKey, Slots>, devices: map<nat, DeviceInfo>, namespaces: set<string>,
      bounds: seq<real>, out: seq<Metric>, keys: seq<HistKey>, dev: u32, rw: char, op: nat)
    requires BlockCalls.Counts(hists, cs) && BlockCalls.IsOp(rw, op)
    requires |BlockCalls.Latencies(cs, dev, rw, op)| < TWO_64
    requires IsExport(BlockHists, hists, hists.Keys, devices, namespaces, bounds, out, keys)
    ensures HistKey(dev, op) in keys <==>
      BlockCalls.Latencies(cs, dev, rw, op) != [] && Passes(BlockHists, devices, namespaces, dev)
    ensures forall i :: 0 <= i < |out| && keys[i] == HistKey(dev, op) ==>
      Tells(out[i], devices, bounds, dev, LetterName(rw), BlockCalls.Latencies(cs, dev, rw, op))
  {
    var ds := BlockCalls.Latencies(cs, dev, rw, op);
    assert BlockCalls.CountsOp(hists, cs, dev, rw, op);
    CollectedKey(BlockHists, hists, devices, namespaces, bounds, out, keys, HistKey(dev, op), ds);
  }

  /** The same for the reads and writes of a device over NFS, except that one that is not in the table is left out. */
  ghost predicate NfsReport(cs: seq<NfsCalls.Call>, devices: map<nat, DeviceInfo>, namespaces: set<string>,
                            bounds: seq<real>, out: seq<Metric>, keys: seq<HistKey>)
  {
    && AllDistinct(keys) && |keys| == |out| && (forall i :: 0 <= i < |keys| ==> keys[i].op <= 1)
    && (forall dev: u32, write ::
          (HistKey(dev, NfsCalls.Op(write)) in keys <==>
             NfsCalls.Latencies(cs, dev, write) != [] && Passes(NfsHists, devices, namespaces, dev)))
    && (forall i, write :: 0 <= i < |out| && keys[i].op == NfsCalls.Op(write) ==>
          Tells(out[i], devices, bounds, keys[i].dev, if write then "write" else "read",
                NfsCalls.Latencies(cs, keys[i].dev, write)))
  }

  lemma CollectAfterNfsCalls(
      cs: seq<NfsCalls.Call>, hists: map<HistKey, Slots>, devices: map<nat, DeviceInfo>, namespaces: set<string>,
      bounds: seq<real>, out: seq<Metric>, keys: seq<HistKey>)
    requires NfsCalls.Counts(hists, cs) && forall dev: u32, write :: |NfsCalls.Latencies(cs, dev, write)| < TWO_64
    requires IsExport(NfsHists, hists, hists.Keys, devices, namespaces, bounds, out, keys)
    ensures NfsReport(cs, devices, namespaces, bounds, out, keys)
  {
    forall i | 0 <= i < |keys| ensures keys[i].op <= 1 { assert keys[i] in keys; }
    forall dev: u32, write
      ensures HistKey(dev, NfsCalls.Op(write)) in keys <==>
        NfsCalls.Latencies(cs, dev, write) != [] && Passes(NfsHists, devices, namespaces, dev)
    {
      CollectedDirection(cs, hists, devices, namespaces, bounds, out, keys, dev, write);
    }
    forall i, write | 0 <= i < |out| && keys[i].op == NfsCalls.Op(write)
      ensures Tells(out[i], devices, bounds, keys[i].dev, if write then "write" else "read",
                    NfsCalls.Latencies(cs, keys[i].dev, write))
    {
      CollectedDirection(cs, hists, devices, namespaces, bounds, out, keys, keys[i].dev, write);
    }
  }

  lemma CollectedDirection(
      cs: seq<NfsCalls.Call>, hists: map<HistKey, Slots>, devices: map<nat, DeviceInfo>, namespaces: set<string>,
      bounds: seq<real>, out: seq<Metric>, keys: seq<HistKey>, dev: u32, write: bool)
    requires NfsCalls.Counts(hists, cs) && |NfsCalls.Latencies(cs, dev, write)| < TWO_64
    requires IsExport(NfsHists, hists, hists.Keys, devices, namespaces, bounds, out, keys)
    ensures HistKey(dev, NfsCalls.Op(write)) in keys <==>
      NfsCalls.Latencies(cs, dev, write) != [] && Passes(NfsHists, devices, namespaces, dev)
    ensures forall i :: 0 <= i < |out| && keys[i] == HistKey(dev, NfsCalls.Op(write)) ==>
      Tells(out[i], devices, bounds, dev, if write then "write" else "read", NfsCalls.Latencies(cs, dev, write))
  {
    var k, ds := HistKey(dev, NfsCalls.Op(write)), NfsCalls.Latencies(cs, dev, write);
    assert NfsCalls.CountsOp(hists, cs, dev, write);
    CollectedKey(NfsHists, hists, devices, namespaces, bounds, out, keys, k, ds);
  }

  /** From the handlers' calls to what is sent. */
  method CollectBlockCalls(cs: seq<BlockCalls.Call>, devices: map<nat, DeviceInfo>, namespaces: set<string>,
                           bounds: seq<real>)
    returns (out: seq<Metric>, ghost keys: seq<HistKey>)
    requires forall dev, rw, op :: |BlockCalls.Latencies(cs, dev, rw, op)| < TWO_64
    ensures BlockReport(cs, devices, namespaces, bounds, out, keys)
    ensures forall m :: m in out ==> TellsOfBlock(m, cs, devices, bounds)
  {
    var p := BlockCalls.Replay(cs);
    var ceiling := InitSlotCeiling();
    out, keys := Collect(BlockHists, ceiling, p.hists, devices, namespaces, bounds);
    CollectAfterBlockCalls(cs, p.hists, devices, namespaces, bounds, out, keys);
    BlockMetricsTell(cs, devices, namespaces, bounds, out, keys);
  }

  /** The metric is of the latencies of some operation on some device. */
  ghost predicate TellsOfBlock(m: Metric, cs: seq<BlockCalls.Call>, devices: map<nat, DeviceInfo>, bounds: seq<real>) {
    exists dev: u32, rw, op ::
      BlockCalls.IsOp(rw, op) && Tells(m, devices, bounds, dev, LetterName(rw), BlockCalls.Latencies(cs, dev, rw, op))
  }

  lemma BlockMetricsTell(cs: seq<BlockCalls.Call>, devices: map<nat, DeviceInfo>, namespaces: set<string>,
                         bounds: seq<real>, out: seq<Metric>, keys: seq<HistKey>)
    requires BlockReport(cs, devices, namespaces, bounds, out, keys)
    ensures forall m :: m in out ==> TellsOfBlock(m, cs, devices, bounds)
  {
    forall m | m in out ensures TellsOfBlock(m, cs, devices, bounds) {
      var i :| 0 <= i < |out| && out[i] == m;
      var op := keys[i].op;
      var rw := if op == 0 then 'R' else if op == 1 then 'W' else if op == 2 then 'D' else 'F';
      assert BlockCalls.IsOp(rw, op);
    }
  }

  method CollectNfsCalls(cs: seq<NfsCalls.Call>, devices: map<nat, DeviceInfo>, namespaces: set<string>,
                         bounds: seq<real>)
    returns (out: seq<Metric>, ghost keys: seq<HistKey>)
    requires forall dev, write :: |NfsCalls.Latencies(cs, dev, write)| < TWO_64
    ensures NfsReport(cs, devices, namespaces, bounds, out, keys)
    ensures forall m :: m in out ==> TellsOfNfs(m, cs, devices, bounds)
  {
    var p := NfsCalls.Replay(cs);
    var ceiling := InitSlotCeiling();
    out, keys := Collect(NfsHists, ceiling, p.hists, devices, namespaces, bounds);
    CollectAfterNfsCalls(cs, p.hists, devices, namespaces, bounds, out, keys);
    NfsMetricsTell(cs, devices, namespaces, bounds, out, keys);
  }

  ghost predicate TellsOfNfs(m: Metric, cs: seq<NfsCalls.Call>, devices: map<nat, DeviceInfo>, bounds: seq<real>) {
    exists dev: u32, write ::
      Tells(m, devices, bounds, dev, if write then "write" else "read", NfsCalls.Latencies(cs, dev, write))
  }

  lemma NfsMetricsTell(cs: seq<NfsCalls.Call>, devices: map<nat, DeviceInfo>, namespaces: set<string>,
                       bounds: seq<real>, out: seq<Metric>, keys: seq<HistKey>)
    requires NfsReport(cs, devices, namespaces, bounds, out, keys)
    ensures forall m :: m in out ==> TellsOfNfs(m, cs, devices, bounds)
  {
    forall m | m in out ensures TellsOfNfs(m, cs, devices, bounds) {
      var i :| 0 <= i < |out| && out[i] == m;
      var write := keys[i].op == 1;
      assert keys[i].op == NfsCalls.Op(write);
    }
  }

  /** The name of the operation that probed functions are of. */
  function FunctionsName(fns: set<KprobeCalls.Function>): string {
    if fns == {KprobeCalls.FileRead} then "read"
    else if fns == {KprobeCalls.FileWrite} then "write"
    else if fns == {KprobeCalls.Getattr} then "getattr"
    else "open"
  }

  /** For each operation and each device of the table that passes the filter one metric if and only if leaf calls
      were made to the operation's functions, labelled with that device's pod and the operation's name, whose count,
      buckets and sum are within their bounds of the durations of those calls. */
  ghost predicate KprobeReport(
      tids: seq<u64>, calls: map<u64, Calls>, devices: map<nat, DeviceInfo>, namespaces: set<string>,
      bounds: seq<real>, out: seq<Metric>, keys: seq<HistKey>)
    requires forall tid :: tid in tids ==> tid in calls
  {
    && AllDistinct(keys) && |keys| == |out| && (forall i :: 0 <= i < |keys| ==> keys[i].op <= 3)
    && (forall dev: u32, fns, op :: KprobeCalls.IsOp(fns, op) ==>
          (HistKey(dev, op) in keys <==>
             AllLeafTimes(tids, calls, dev, fns) != [] && Passes(NfsKprobeHists, devices, namespaces, dev)))
    && (forall i, fns :: 0 <= i < |out| && KprobeCalls.IsOp(fns, keys[i].op) ==>
          Tells(out[i], devices, bounds, keys[i].dev, FunctionsName(fns), AllLeafTimes(tids, calls, keys[i].dev, fns)))
  }

  /** Every collection after an interleaving of threads whose probed functions nest is such a report. */
  lemma CollectAfterCalls(
      t: seq<ProbeEvent>, tids: seq<u64>, calls: map<u64, Calls>, devices: map<nat, DeviceInfo>,
      namespaces: set<string>, bounds: seq<real>, out: seq<Metric>, keys: seq<HistKey>)
    requires Interleaves(t, tids, calls) && forall dev, fns :: |AllLeafTimes(tids, calls, dev, fns)| < TWO_64
    requires IsExport(NfsKprobeHists, ProbeRun(t).hists, ProbeRun(t).hists.Keys, devices, namespaces, bounds, out, keys)
    ensures KprobeReport(tids, calls, devices, namespaces, bounds, out, keys)
  {
    ProbesCountLeafCalls(t, tids, calls);
    CollectAfterLeaves(tids, calls, ProbeRun(t).hists, devices, namespaces, bounds, out, keys);
  }

  lemma CollectAfterLeaves(
      tids: seq<u64>, calls: map<u64, Calls>, hists: map<HistKey, Slots>, devices: map<nat, DeviceInfo>,
      namespaces: set<string>, bounds: seq<real>, out: seq<Metric>, keys: seq<HistKey>)
    requires (forall tid :: tid in tids ==> tid in calls) && KprobeCalls.Counts(hists, tids, calls)
    requires forall dev, fns :: |AllLeafTimes(tids, calls, dev, fns)| < TWO_64
    requires IsExport(NfsKprobeHists, hists, hists.Keys, devices, namespaces, bounds, out, keys)
    ensures KprobeReport(tids, calls, devices, namespaces, bounds, out, keys)
  {
    forall i | 0 <= i < |keys| ensures keys[i].op <= 3 { assert keys[i] in keys; }
    forall dev: u32, fns, op | KprobeCalls.IsOp(fns, op)
      ensures HistKey(dev, op) in keys <==>
        AllLeafTimes(tids, calls, dev, fns) != [] && Passes(NfsKprobeHists, devices, namespaces, dev)
    {
      CollectedFunctions(tids, calls, hists, devices, namespaces, bounds, out, keys, dev, fns, op);
    }
    forall i, fns | 0 <= i < |out| && KprobeCalls.IsOp(fns, keys[i].op)
      ensures Tells(out[i], devices, bounds, keys[i].dev, FunctionsName(fns),
                    AllLeafTimes(tids, calls, keys[i].dev, fns))
    {
      CollectedFunctions(tids, calls, hists, devices, namespaces, bounds, out, keys, keys[i].dev, fns, keys[i].op);
    }
  }

  lemma CollectedFunctions(
      tids: seq<u64>, calls: map<u64, Calls>, hists: map<HistKey, Slots>, devices: map<nat, DeviceInfo>,
      namespaces: set<string>, bounds: seq<real>, out: seq<Metric>, keys: seq<HistKey>, dev: u32,
      fns: set<KprobeCalls.Function>, op: nat)
    requires (forall tid :: tid in tids ==> tid in calls) && KprobeCalls.Counts(hists, tids, calls)
    requires |AllLeafTimes(tids, calls, dev, fns)| < TWO_64 && KprobeCalls.IsOp(fns, op)
    requires IsExport(NfsKprobeHists, hists, hists.Keys, devices, namespaces, bounds, out, keys)
    ensures HistKey(dev, op) in keys <==>
      AllLeafTimes(tids, calls, dev, fns) != [] && Passes(NfsKprobeHists, devices, namespaces, dev)
    ensures forall i :: 0 <= i < |out| && keys[i] == HistKey(dev, op) ==>
      Tells(out[i], devices, bounds, dev, FunctionsName(fns), AllLeafTimes(tids, calls, dev, fns))
  {
    var ds := AllLeafTimes(tids, calls, dev, fns);
    assert KprobeCalls.CountsOp(hists, tids, calls, dev, fns, op);
    CollectedKey(NfsKprobeHists, hists, devices, namespaces, bounds, out, keys, HistKey(dev, op), ds);
    assert FunctionsName(fns) == OpLabel(NfsKprobeHists, op);
  }

  // ---- Labels ----

  /** Two devices of the table that the same pod and claim are named for. */
  ghost predicate SharePod(devices: map<nat, DeviceInfo>, d: nat, d': nat) {
    && d in devices && d' in devices && d != d'
    && devices[d].namespace == devices[d'].namespace
    && devices[d].pvc == devices[d'].pvc && devices[d].pod == devices[d'].pod
  }

  lemma DevToStringInjective(d: u32, d': u32)
    requires DevToString(d) == DevToString(d')
    ensures d == d'
  {
    PrintedDeviceRoundTrip(d);
    PrintedDeviceRoundTrip(d');
  }

  /** Two histograms of one map get the same labels exactly when they are of the same operation on two devices
      that share a pod and claim in an exported namespace: then a scrape holds a duplicate series. */
  lemma LabelsClashIff(source: Source, devices: map<nat, DeviceInfo>, namespaces: set<string>, k: HistKey, k': HistKey)
    requires k != k'
    ensures LabelsFor(source, devices, namespaces, k).Some? &&
            LabelsFor(source, devices, namespaces, k) == LabelsFor(source, devices, namespaces, k') <==>
            k.op == k'.op <= LastOp(source) && SharePod(devices, k.dev, k'.dev) &&
              NamespaceAllowed(namespaces, devices[k.dev].namespace)
  {
    if k.dev !in devices && k'.dev !in devices && DevToString(k.dev) == DevToString(k'.dev) {
      DevToStringInjective(k.dev, k'.dev);
    }
  }

  /** A collection never sends the same labels twice as long as no two devices of the table share a pod and claim. */
  lemma CollectedLabelsDistinct(
      source: Source, hists: map<HistKey, Slots>, devices: map<nat, DeviceInfo>, namespaces: set<string>,
      bounds: seq<real>, out: seq<Metric>, keys: seq<HistKey>)
    requires IsExport(source, hists, hists.Keys, devices, namespaces, bounds, out, keys)
    requires forall d, d' :: !SharePod(devices, d, d')
    ensures forall i, j :: 0 <= i < j < |out| ==> out[i].labels != out[j].labels
  {
    forall i, j | 0 <= i < j < |out| ensures out[i].labels != out[j].labels {
      assert Sent(source, hists, devices, namespaces, bounds, out[i], keys[i]);
      assert Sent(source, hists, devices, namespaces, bounds, out[j], keys[j]);
      LabelsClashIff(source, devices, namespaces, keys[i], keys[j]);
    }
  }

  /** A scan can produce such a table: one volume of a pod mounted from two devices. */
  lemma SharedClaimIsReachable(v: Volume, meta: PodMeta) returns (node: Node, mounts: seq<MountEntry>)
    requires IsUuid(v.podUid) && IsName(v.pv)
    ensures forall devices :: Describes(devices, AllResolved(node, mounts)) ==>
      SharePod(devices, MkDev(8, 0), MkDev(8, 1))
  {
    node := Node("node", [Pod(v.podUid, meta)], map[], map[]);
    var e := MountEntry(1, 0, 8, 0, "/", VolumePath("/a", v, "p", false), "ext4", "sda");
    var f := MountEntry(2, 0, 8, 1, "/", VolumePath("/b", v, "p", false), "ext4", "sdb");
    mounts := [e, f];
    var cs := AllResolved(node, mounts);
    MountedVolumeResolves(node, e, "/a", v, "p", false);
    MountedVolumeResolves(node, f, "/b", v, "p", false);
    MkDevApart();
    assert IsFor(cs[0], MkDev(8, 0)) && IsFor(cs[1], MkDev(8, 1));
    LastForIsLast(cs, MkDev(8, 0));
    LastForIsLast(cs, MkDev(8, 1));
    forall devices | Describes(devices, cs) ensures SharePod(devices, MkDev(8, 0), MkDev(8, 1)) {
      assert LastFor(cs, MkDev(8, 0)) == Get(devices, MkDev(8, 0));
      assert LastFor(cs, MkDev(8, 1)) == Get(devices, MkDev(8, 1));
    }
  }

  lemma MkDevApart()
    ensures MkDev(8, 0) != MkDev(8, 1)
  {
    var major: u32, zero: u32, one: u32 := 8, 0, 1;
    MkDevArithmetic(major, zero);
    MkDevArithmetic(major, one);
  }
}

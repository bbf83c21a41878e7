/** pkg/qmp/collector.go, Collect: the metrics sent for the results of the last poll. */
module QmpCollect {
  import opened Bits
  import opened Containers
  import opened GoText
  import opened QmpBuckets
  import opened QmpConnections
  import opened QmpLabels
  import opened QmpScrape
  import opened Seqs
  import opened Tables

  datatype Metric =
    | LatencyHistogram(labels: LatencyLabels, count: u64, sum: real, buckets: map<real, u64>)
    | QueueInUse(queueLabels: QueueLabels, value: nat)
    | QueueSize(queueLabels: QueueLabels, value: nat)

  const OPERATIONS: set<string> := {"read", "write", "flush"}

  function StatsOf(s: BlockStats, op: string): OpStats {
    if op == "read" then s.rd else if op == "write" then s.wr else s.flush
  }

  // ---- What is promised, on the results ----

  /** What a metric is about: an operation of device d, or queue d, of VM i. */
  datatype Subject =
    | OfDevice(i: nat, d: nat, op: string)
    | InUseOf(i: nat, d: nat)
    | SizeOf(i: nat, d: nat)

  /** The subject is there, and for an operation of a device some latency was counted. */
  ghost predicate Due(vms: seq<Vmi>, s: Subject) {
    && s.i < |vms|
    && if s.OfDevice? then
         && s.d < |vms[s.i].result.devices| && s.op in {"read", "write", "flush"}
         && Counted(vms[s.i].result.devices[s.d].stats, s.op)
       else s.d < |vms[s.i].result.virtqueues|
  }

  ghost predicate Counted(s: BlockStats, op: string) {
    var hist := StatsOf(s, op).hist;
    hist.Some? && Prefix(hist.value.bins, |hist.value.bins|) % TWO_64 != 0
  }

  /** The histogram of an operation of a VM's disk: its labels, the total time in seconds, and the bins of the
      operation's own histogram. */
  ghost predicate IsLatency(m: Metric, v: Vmi, d: DeviceResult, op: string, st: OpStats) {
    && m.LatencyHistogram? && st.hist.Some?
    && m.labels.namespace == v.pod.namespace && m.labels.name == v.pod.vmi && m.labels.node == v.node
    && m.labels.pod == v.pod.name && m.labels.disk == d.disk && m.labels.pvc == d.pvc && m.labels.op == op
    && m.sum == st.totalNs as real / 1000000000.0
    && m.count == Prefix(st.hist.value.bins, |st.hist.value.bins|) % TWO_64
    && Describes(m.buckets, Buckets(st.hist.value.boundaries, st.hist.value.bins))
  }

  /** The labels of a queue of a VM, its index printed. */
  ghost predicate NamesQueue(l: QueueLabels, v: Vmi, q: VirtqueueResult) {
    && l.namespace == v.pod.namespace && l.name == v.pod.vmi && l.node == v.node && l.pod == v.pod.name
    && l.disk == q.vq.disk && l.pvc == q.pvc && l.queue == Decimal(q.vq.queue) && l.bus == q.vq.bus
  }

  ghost predicate Fits(vms: seq<Vmi>, s: Subject, m: Metric) {
    && s.i < |vms|
    && match s
       case OfDevice(i, d, op) =>
         && d < |vms[i].result.devices|
         && (op == "read" ==> IsLatency(m, vms[i], vms[i].result.devices[d], op, vms[i].result.devices[d].stats.rd))
         && (op == "write" ==> IsLatency(m, vms[i], vms[i].result.devices[d], op, vms[i].result.devices[d].stats.wr))
         && (op == "flush" ==> IsLatency(m, vms[i], vms[i].result.devices[d], op, vms[i].result.devices[d].stats.flush))
       case InUseOf(i, d) =>
         && d < |vms[i].result.virtqueues| && m.QueueInUse?
         && NamesQueue(m.queueLabels, vms[i], vms[i].result.virtqueues[d])
         && m.value == vms[i].result.virtqueues[d].vq.status.inuse
       case SizeOf(i, d) =>
         && d < |vms[i].result.virtqueues| && m.QueueSize?
         && NamesQueue(m.queueLabels, vms[i], vms[i].result.virtqueues[d])
         && m.value == vms[i].result.virtqueues[d].vq.status.vringNum
  }

  ghost function Differ(): (Subject, Subject) -> bool { (a, b) => a != b }
  ghost function FitsIn(vms: seq<Vmi>): (Subject, Metric) -> bool { (s: Subject, m: Metric) => Fits(vms, s, m) }

  /** One metric for each subject that is due, in some order. */
  ghost predicate Emits(vms: seq<Vmi>, at: seq<Subject>, out: seq<Metric>) {
    && |at| == |out| && AllDistinct(at) && (forall s :: s in at <==> Due(vms, s))
    && forall j :: 0 <= j < |at| ==> Fits(vms, at[j], out[j])
  }

  // ---- The loops ----

  ghost function DueOps(vms: seq<Vmi>, i: nat, d: nat, ops: set<string>): Subject -> bool {
    (s: Subject) => s.OfDevice? && s.i == i && s.d == d && s.op in ops && Due(vms, s)
  }

  ghost function DueDevices(vms: seq<Vmi>, i: nat, n: nat): Subject -> bool {
    (s: Subject) => s.OfDevice? && s.i == i && s.d < n && Due(vms, s)
  }

  ghost function DueQueues(vms: seq<Vmi>, i: nat, n: nat): Subject -> bool {
    (s: Subject) => !s.OfDevice? && s.i == i && s.d < n && Due(vms, s)
  }

  ghost function DueVms(vms: seq<Vmi>, n: nat): Subject -> bool {
    (s: Subject) => s.i < n && Due(vms, s)
  }

  method EmitOp(vms: seq<Vmi>, i: nat, d: nat, op: string) returns (out: seq<Metric>, ghost at: seq<Subject>)
    requires i < |vms| && d < |vms[i].result.devices| && op in OPERATIONS
    ensures Picks(Differ(), DueOps(vms, i, d, {op}), FitsIn(vms), at, out)
  {
    out, at := [], [];
    PicksNothingUnless(vms, i, d, op);
    var v, dev := vms[i], vms[i].result.devices[d];
    var st := StatsOf(dev.stats, op);
    if st.hist.None? {
      return;
    }
    var buckets, count := ConvertBuckets(st.hist.value.boundaries, st.hist.value.bins);
    if count == 0 {
      return;
    }
    var sum := st.totalNs as real / 1000000000.0;
    out := [LatencyHistogram(Latency(v, dev, op), count, sum, buckets)];
    at := [OfDevice(i, d, op)];
    PicksOne(Differ(), DueOps(vms, i, d, {op}), FitsIn(vms), at[0], out[0]);
  }

  lemma PicksNothingUnless(vms: seq<Vmi>, i: nat, d: nat, op: string)
    requires i < |vms| && d < |vms[i].result.devices| && op in OPERATIONS
    ensures !Counted(vms[i].result.devices[d].stats, op) ==>
      Picks(Differ(), DueOps(vms, i, d, {op}), FitsIn(vms), [], [])
    ensures forall s :: DueOps(vms, i, d, {op})(s) <==>
      s == OfDevice(i, d, op) && Counted(vms[i].result.devices[d].stats, op)
  {
    if !Counted(vms[i].result.devices[d].stats, op) {
      PicksNone(Differ(), DueOps(vms, i, d, {op}), FitsIn(vms));
    }
  }

  /** The operations are those of a map, visited in no particular order. */
  method EmitDevice(vms: seq<Vmi>, i: nat, d: nat) returns (out: seq<Metric>, ghost at: seq<Subject>)
    requires i < |vms| && d < |vms[i].result.devices|
    ensures Picks(Differ(), DueOps(vms, i, d, OPERATIONS), FitsIn(vms), at, out)
  {
    out, at := [], [];
    var left := OPERATIONS;
    PicksNone(Differ(), DueOps(vms, i, d, {}), FitsIn(vms));
    while left != {}
      invariant left <= OPERATIONS && Picks(Differ(), DueOps(vms, i, d, OPERATIONS - left), FitsIn(vms), at, out)
    {
      var op :| op in left;
      var more, ats := EmitOp(vms, i, d, op);
      PicksConcat(Differ(), DueOps(vms, i, d, OPERATIONS - left), DueOps(vms, i, d, {op}),
                  DueOps(vms, i, d, OPERATIONS - (left - {op})), FitsIn(vms), at, out, ats, more);
      left := left - {op};
      out, at := out + more, at + ats;
    }
    assert OPERATIONS - left == OPERATIONS;
  }

  method EmitDevices(vms: seq<Vmi>, i: nat) returns (out: seq<Metric>, ghost at: seq<Subject>)
    requires i < |vms|
    ensures Picks(Differ(), DueDevices(vms, i, |vms[i].result.devices|), FitsIn(vms), at, out)
  {
    out, at := [], [];
    PicksNone(Differ(), DueDevices(vms, i, 0), FitsIn(vms));
    for d := 0 to |vms[i].result.devices|
      invariant Picks(Differ(), DueDevices(vms, i, d), FitsIn(vms), at, out)
    {
      var more, ats := EmitDevice(vms, i, d);
      PicksConcat(Differ(), DueDevices(vms, i, d), DueOps(vms, i, d, OPERATIONS), DueDevices(vms, i, d + 1),
                  FitsIn(vms), at, out, ats, more);
      out, at := out + more, at + ats;
    }
  }

  ghost function DueBoth(i: nat, d: nat): Subject -> bool {
    (s: Subject) => s == InUseOf(i, d) || s == SizeOf(i, d)
  }

  method EmitQueue(vms: seq<Vmi>, i: nat, d: nat) returns (out: seq<Metric>, ghost at: seq<Subject>)
    requires i < |vms| && d < |vms[i].result.virtqueues|
    ensures Picks(Differ(), DueBoth(i, d), FitsIn(vms), at, out)
  {
    var v, q := vms[i], vms[i].result.virtqueues[d];
    out := [QueueInUse(Queue(v, q), q.vq.status.inuse), QueueSize(Queue(v, q), q.vq.status.vringNum)];
    at := [InUseOf(i, d), SizeOf(i, d)];
  }

  method EmitQueues(vms: seq<Vmi>, i: nat) returns (out: seq<Metric>, ghost at: seq<Subject>)
    requires i < |vms|
    ensures Picks(Differ(), DueQueues(vms, i, |vms[i].result.virtqueues|), FitsIn(vms), at, out)
  {
    out, at := [], [];
    PicksNone(Differ(), DueQueues(vms, i, 0), FitsIn(vms));
    for d := 0 to |vms[i].result.virtqueues|
      invariant Picks(Differ(), DueQueues(vms, i, d), FitsIn(vms), at, out)
    {
      var more, ats := EmitQueue(vms, i, d);
      PicksConcat(Differ(), DueQueues(vms, i, d), DueBoth(i, d), DueQueues(vms, i, d + 1), FitsIn(vms),
                  at, out, ats, more);
      out, at := out + more, at + ats;
    }
  }

  ghost function DueVm(vms: seq<Vmi>, i: nat): Subject -> bool { (s: Subject) => s.i == i && Due(vms, s) }

  method EmitVm(vms: seq<Vmi>, i: nat) returns (out: seq<Metric>, ghost at: seq<Subject>)
    requires i < |vms|
    ensures Picks(Differ(), DueVm(vms, i), FitsIn(vms), at, out)
  {
    var devices, atDevices := EmitDevices(vms, i);
    var queues, atQueues := EmitQueues(vms, i);
    PicksConcat(Differ(), DueDevices(vms, i, |vms[i].result.devices|), DueQueues(vms, i, |vms[i].result.virtqueues|),
                DueVm(vms, i), FitsIn(vms), atDevices, devices, atQueues, queues);
    out, at := devices + queues, atDevices + atQueues;
  }

  /** One latency histogram for each operation of each device with latencies, and two gauges for each queue, of every
      result, with the labels and numbers of that result. */
  method Collect(vms: seq<Vmi>) returns (out: seq<Metric>, ghost at: seq<Subject>)
    ensures Emits(vms, at, out)
    ensures forall m :: m in out ==> IsDue(vms, m)
  {
    out, at := [], [];
    PicksNone(Differ(), DueVms(vms, 0), FitsIn(vms));
    for i := 0 to |vms|
      invariant Picks(Differ(), DueVms(vms, i), FitsIn(vms), at, out)
    {
      var more, ats := EmitVm(vms, i);
      PicksConcat(Differ(), DueVms(vms, i), DueVm(vms, i), DueVms(vms, i + 1), FitsIn(vms), at, out, ats, more);
      out, at := out + more, at + ats;
    }
    PicksIsEmits(vms, at, out);
    AllAreDue(vms, at, out);
  }

  /** The metric is of some subject that is due. */
  ghost predicate IsDue(vms: seq<Vmi>, m: Metric) { exists s :: Due(vms, s) && Fits(vms, s, m) }

  lemma AllAreDue(vms: seq<Vmi>, at: seq<Subject>, out: seq<Metric>)
    requires Emits(vms, at, out)
    ensures forall m :: m in out ==> IsDue(vms, m)
  {
    forall m | m in out ensures IsDue(vms, m) {
      var j :| 0 <= j < |out| && out[j] == m;
      assert at[j] in at && Fits(vms, at[j], m);
    }
  }

  lemma PicksIsEmits(vms: seq<Vmi>, at: seq<Subject>, out: seq<Metric>)
    requires Picks(Differ(), DueVms(vms, |vms|), FitsIn(vms), at, out)
    ensures Emits(vms, at, out)
  {
    forall i, j | 0 <= i < j < |at| ensures at[i] != at[j] { assert Differ()(at[i], at[j]); }
    forall s ensures s in at <==> Due(vms, s) { assert s in at <==> DueVms(vms, |vms|)(s); }
    forall j | 0 <= j < |at| ensures Fits(vms, at[j], out[j]) { assert FitsIn(vms)(at[j], out[j]); }
  }

  // ---- What the numbers mean ----

  /** If QEMU's bins hold these latencies, the histogram sent counts them all, and its bucket for a boundary counts
      those below it. */
  lemma LatenciesAreCounted(m: Metric, v: Vmi, d: DeviceResult, op: string, st: OpStats, samples: seq<real>, i: nat)
    requires IsLatency(m, v, d, op, st) && |samples| < TWO_64 && Increasing(st.hist.value.boundaries)
    requires st.hist.value.bins == Bins(st.hist.value.boundaries, samples) && i < |st.hist.value.boundaries|
    ensures m.count == |samples|
    ensures var b := st.hist.value.boundaries[i];
      b / 1000000000.0 in m.buckets && m.buckets[b / 1000000000.0] == CountIf(samples, Under(b))
  {
    BucketsMean(st.hist.value.boundaries, samples, m.buckets, i);
    SmallModulo(|samples|);
  }

  lemma BucketsMean(bs: seq<real>, samples: seq<real>, buckets: map<real, u64>, i: nat)
    requires |samples| < TWO_64 && Increasing(bs) && i < |bs| && Describes(buckets, Buckets(bs, Bins(bs, samples)))
    ensures Prefix(Bins(bs, samples), |bs| + 1) == |samples|
    ensures bs[i] / 1000000000.0 in buckets && buckets[bs[i] / 1000000000.0] == CountIf(samples, Under(bs[i]))
  {
    BucketsCountSamples(bs, samples, i);
    assert LastFor(Buckets(bs, Bins(bs, samples)), bs[i] / 1000000000.0) == Get(buckets, bs[i] / 1000000000.0);
  }

  /** No two metrics of one kind carry the same labels when no two series of the results do. */
  lemma EmittedLabelsDistinct(vms: seq<Vmi>, at: seq<Subject>, out: seq<Metric>, i: nat, j: nat)
    requires Emits(vms, at, out) && DistinctSeries(vms) && i < j < |out|
    ensures LabelledApart(out[i], out[j])
  {
    var s, t := at[i], at[j];
    assert s != t && Fits(vms, s, out[i]) && Fits(vms, t, out[j]) && s in at && t in at;
    if s.OfDevice? && t.OfDevice? && out[i].labels == out[j].labels {
      assert SameLatency(vms, s.i, s.d, s.op, t.i, t.d, t.op);
    }
    if !s.OfDevice? && !t.OfDevice? && out[i].queueLabels == out[j].queueLabels {
      assert SameQueue(vms, s.i, s.d, t.i, t.d);
    }
  }

  /** After any run of polls the metrics sent are those of the last poll's results, and under the hypotheses on pods
      and names no two of one kind carry the same labels. */
  method PollAndCollect(c: Collector, inputs: seq<PollInput>, ghost podOf: map<ContainerId, Pod>)
    returns (out: seq<Metric>, ghost at: seq<Subject>)
    requires c.Valid() && c.connections == map[] && c.results == []
    modifies c
    ensures c.Valid() && Emits(c.results, at, out)
    ensures AllIdentify(podOf, inputs) ==>
      AreScrapes(c.results, podOf, c.node, if inputs == [] then map[] else inputs[|inputs| - 1].scraped)
    ensures AllIdentify(podOf, inputs) && (inputs != [] ==> WellPosed(inputs[|inputs| - 1])) ==> LabelsDistinct(out)
  {
    CollectAfterPolls(c, inputs, podOf);
    out, at := Collect(c.results);
    if DistinctSeries(c.results) {
      AllLabelsDistinct(c.results, at, out);
    }
  }

  ghost predicate LabelsDistinct(out: seq<Metric>) {
    forall i: nat, j: nat :: i < j < |out| ==> LabelledApart(out[i], out[j])
  }

  ghost predicate LabelledApart(m: Metric, n: Metric) {
    && (m.LatencyHistogram? && n.LatencyHistogram? ==> m.labels != n.labels)
    && (m.QueueInUse? && n.QueueInUse? ==> m.queueLabels != n.queueLabels)
    && (m.QueueSize? && n.QueueSize? ==> m.queueLabels != n.queueLabels)
  }

  lemma AllLabelsDistinct(vms: seq<Vmi>, at: seq<Subject>, out: seq<Metric>)
    requires Emits(vms, at, out) && DistinctSeries(vms)
    ensures LabelsDistinct(out)
  {
    forall i: nat, j: nat | i < j < |out| ensures LabelledApart(out[i], out[j]) {
      EmittedLabelsDistinct(vms, at, out, i, j);
    }
  }
}

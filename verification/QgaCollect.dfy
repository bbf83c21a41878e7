/** pkg/qga/collector.go: a VM's scrape from raw counters to named disks, and the gauges Collect sends for them. */
module QgaCollect {
  import opened Bits
  import opened QgaDisks
  import opened QgaMetrics
  import opened Seqs

  datatype EnrichedDisk = EnrichedDisk(metrics: DiskMetrics, disk: string, pvc: string)

  datatype VmiResult = VmiResult(
    namespace: string, name: string, node: string, pod: string, disks: seq<EnrichedDisk>)

  datatype GaugeLabels = GaugeLabels(
    namespace: string, name: string, node: string, pod: string, disk: string, pvc: string, op: string, drive: string)

  datatype Metric = LatencyAvg(labels: GaugeLabels, value: real) | IopsGauge(labels: GaugeLabels, value: real)

  // ---- One VM's scrape ----

  /** The disks are those of the poll's outcome that the latest successful poll before had at an earlier guest time,
      each once, with the metrics of that interval and the names and claims of this order of lookups. */
  ghost predicate IsScraped(disks: seq<EnrichedDisk>, names: seq<string>, run: seq<Option<Snapshot>>,
                            outcome: Option<Snapshot>, named: seq<NamedDisk>)
  {
    && |disks| == |names| == |named| && AllDistinct(names)
    && (forall name :: name in names <==> Diffable(run, outcome, name))
    && forall j :: 0 <= j < |disks| ==>
         && Diffable(run, outcome, names[j])
         && Measures(disks[j].metrics, Latest(run).value[names[j]], outcome.value[names[j]])
         && disks[j].disk == named[j].disk && disks[j].pvc == named[j].pvc
  }

  ghost predicate Diffable(run: seq<Option<Snapshot>>, outcome: Option<Snapshot>, name: string) {
    && outcome.Some? && Latest(run).Some? && name in outcome.value && name in Latest(run).value
    && Latest(run).value[name].timestamp100ns < outcome.value[name].timestamp100ns
  }

  lemma ExportedIsDiffable(run: seq<Option<Snapshot>>, outcome: Option<Snapshot>, name: string)
    ensures Exported(run + [outcome], name).Some? <==> Diffable(run, outcome, name)
    ensures Diffable(run, outcome, name) ==>
      Measures(Exported(run + [outcome], name).value, Latest(run).value[name], outcome.value[name])
  {
    assert (run + [outcome])[..|run|] == run;
    ExportedIff(run + [outcome], name);
  }

  method InSomeOrder(keys: set<string>) returns (names: seq<string>)
    ensures AllDistinct(names) && forall name :: name in names <==> name in keys
  {
    names := [];
    var left := keys;
    while left != {}
      invariant left <= keys && AllDistinct(names) && forall name :: name in names <==> name in keys - left
    {
      var name :| name in left;
      left := left - {name};
      assert forall i :: 0 <= i < |names| ==> names[i] in names;
      names := names + [name];
    }
  }

  /** scrapeVM. `run` is the VM's history of polls so far. */
  method ScrapeVm(snaps: VmSnapshots, vm: VmDisks, counters: Option<seq<DiskCounters>>, diskMap: map<int, string>,
                  fetched: map<string, string>, ghost run: seq<Option<Snapshot>>)
    returns (disks: seq<EnrichedDisk>, names: seq<string>, ghost outcome: Option<Snapshot>)
    requires snaps.prevSnapshot == Latest(run)
    modifies snaps, vm
    ensures outcome.Some? <==> counters.Some?
    ensures counters.Some? ==> outcome.value == LastByName(counters.value)
    ensures snaps.prevSnapshot == Latest(run + [outcome])
    ensures IsScraped(disks, names, run, outcome, NamedBy(names, diskMap, old(vm.pvcMap), fetched))
  {
    var metrics;
    metrics, outcome := snaps.Scrape(counters, run);
    names := InSomeOrder(metrics.Keys);
    var named, _ := vm.NameAll(names, diskMap, fetched);
    assert forall j :: 0 <= j < |names| ==> names[j] in names;
    disks := Enrich(names, metrics, named);
    EnrichedIsScraped(disks, names, metrics, run, outcome, named);
  }

  method Enrich(names: seq<string>, metrics: map<string, DiskMetrics>, named: seq<NamedDisk>)
    returns (disks: seq<EnrichedDisk>)
    requires |named| == |names| && forall j :: 0 <= j < |names| ==> names[j] in metrics
    ensures Enriched(disks, names, metrics, named)
  {
    disks := [];
    for j := 0 to |names|
      invariant |disks| == j
      invariant forall k :: 0 <= k < j ==> disks[k] == EnrichedDisk(metrics[names[k]], named[k].disk, named[k].pvc)
    {
      disks := disks + [EnrichedDisk(metrics[names[j]], named[j].disk, named[j].pvc)];
    }
  }

  ghost predicate Enriched(disks: seq<EnrichedDisk>, names: seq<string>, metrics: map<string, DiskMetrics>,
                           named: seq<NamedDisk>)
  {
    && |disks| == |names| == |named|
    && forall j :: 0 <= j < |disks| ==>
         names[j] in metrics && disks[j] == EnrichedDisk(metrics[names[j]], named[j].disk, named[j].pvc)
  }

  lemma EnrichedIsScraped(
      disks: seq<EnrichedDisk>, names: seq<string>, metrics: map<string, DiskMetrics>, run: seq<Option<Snapshot>>,
      outcome: Option<Snapshot>, named: seq<NamedDisk>)
    requires Enriched(disks, names, metrics, named) && AllDistinct(names)
    requires forall name :: name in names <==> name in metrics
    requires forall name :: name in metrics <==> Exported(run + [outcome], name).Some?
    requires forall name :: name in metrics ==> Exported(run + [outcome], name) == Some(metrics[name])
    ensures IsScraped(disks, names, run, outcome, named)
  {
    forall name ensures name in names <==> Diffable(run, outcome, name) { ExportedIsDiffable(run, outcome, name); }
    forall j | 0 <= j < |disks|
      ensures Diffable(run, outcome, names[j])
      ensures Measures(disks[j].metrics, Latest(run).value[names[j]], outcome.value[names[j]])
    {
      assert names[j] in names;
      ExportedIsDiffable(run, outcome, names[j]);
    }
  }

  // ---- Collect ----

  /** What a gauge is about: the latency or the rate of one direction of disk d of VM i. */
  datatype Subject = Subject(i: nat, d: nat, write: bool, rate: bool)

  /** The disk is there, and that direction has a rate or a latency. */
  ghost predicate Due(vms: seq<VmiResult>, s: Subject) {
    && s.i < |vms| && s.d < |vms[s.i].disks|
    && var m := vms[s.i].disks[s.d].metrics;
       if s.write then m.wrIops > 0.0 || m.wrLatSec > 0.0 else m.rdIops > 0.0 || m.rdLatSec > 0.0
  }

  /** The labels of one direction of a VM's disk. */
  ghost predicate Names(l: GaugeLabels, v: VmiResult, d: EnrichedDisk, write: bool) {
    && l.namespace == v.namespace && l.name == v.name && l.node == v.node && l.pod == v.pod
    && l.disk == d.disk && l.pvc == d.pvc && l.op == (if write then "write" else "read") && l.drive == d.metrics.name
  }

  ghost predicate Fits(vms: seq<VmiResult>, s: Subject, m: Metric) {
    && s.i < |vms| && s.d < |vms[s.i].disks| && Names(m.labels, vms[s.i], vms[s.i].disks[s.d], s.write)
    && (m.IopsGauge? <==> s.rate)
    && m.value ==
         if s.rate then if s.write then vms[s.i].disks[s.d].metrics.wrIops else vms[s.i].disks[s.d].metrics.rdIops
         else if s.write then vms[s.i].disks[s.d].metrics.wrLatSec else vms[s.i].disks[s.d].metrics.rdLatSec
  }

  ghost function Differ(): (Subject, Subject) -> bool { (a, b) => a != b }
  ghost function FitsIn(vms: seq<VmiResult>): (Subject, Metric) -> bool { (s: Subject, m: Metric) => Fits(vms, s, m) }

  /** One gauge for each subject that is due. */
  ghost predicate Emits(vms: seq<VmiResult>, at: seq<Subject>, out: seq<Metric>) {
    && |at| == |out| && AllDistinct(at) && (forall s :: s in at <==> Due(vms, s))
    && forall j :: 0 <= j < |at| ==> Fits(vms, at[j], out[j])
  }

  ghost function DueDisks(vms: seq<VmiResult>, i: nat, n: nat): Subject -> bool {
    (s: Subject) => s.i == i && s.d < n && Due(vms, s)
  }

  ghost function DueWay(vms: seq<VmiResult>, i: nat, d: nat, write: bool): Subject -> bool {
    (s: Subject) => s.i == i && s.d == d && s.write == write && Due(vms, s)
  }

  ghost function DueDisk(vms: seq<VmiResult>, i: nat, d: nat): Subject -> bool {
    (s: Subject) => s.i == i && s.d == d && Due(vms, s)
  }

  ghost function DueVms(vms: seq<VmiResult>, n: nat): Subject -> bool { (s: Subject) => s.i < n && Due(vms, s) }

  function LabelsOf(v: VmiResult, d: EnrichedDisk, op: string): GaugeLabels {
    GaugeLabels(v.namespace, v.name, v.node, v.pod, d.disk, d.pvc, op, d.metrics.name)
  }

  method EmitWay(vms: seq<VmiResult>, i: nat, d: nat, write: bool)
    returns (out: seq<Metric>, ghost at: seq<Subject>)
    requires i < |vms| && d < |vms[i].disks|
    ensures Picks(Differ(), DueWay(vms, i, d, write), FitsIn(vms), at, out)
  {
    out, at := [], [];
    var v, disk := vms[i], vms[i].disks[d];
    var lat := if write then disk.metrics.wrLatSec else disk.metrics.rdLatSec;
    var iops := if write then disk.metrics.wrIops else disk.metrics.rdIops;
    if iops > 0.0 || lat > 0.0 {
      var labels := LabelsOf(v, disk, if write then "write" else "read");
      out := [LatencyAvg(labels, lat), IopsGauge(labels, iops)];
      at := [Subject(i, d, write, false), Subject(i, d, write, true)];
    } else {
      PicksNone(Differ(), DueWay(vms, i, d, write), FitsIn(vms));
    }
  }

  method EmitDisks(vms: seq<VmiResult>, i: nat) returns (out: seq<Metric>, ghost at: seq<Subject>)
    requires i < |vms|
    ensures Picks(Differ(), DueDisks(vms, i, |vms[i].disks|), FitsIn(vms), at, out)
  {
    out, at := [], [];
    PicksNone(Differ(), DueDisks(vms, i, 0), FitsIn(vms));
    for d := 0 to |vms[i].disks|
      invariant Picks(Differ(), DueDisks(vms, i, d), FitsIn(vms), at, out)
    {
      var rd, atRd := EmitWay(vms, i, d, false);
      var wr, atWr := EmitWay(vms, i, d, true);
      PicksConcat(Differ(), DueWay(vms, i, d, false), DueWay(vms, i, d, true), DueDisk(vms, i, d), FitsIn(vms),
                  atRd, rd, atWr, wr);
      PicksConcat(Differ(), DueDisks(vms, i, d), DueDisk(vms, i, d), DueDisks(vms, i, d + 1), FitsIn(vms),
                  at, out, atRd + atWr, rd + wr);
      out, at := out + (rd + wr), at + (atRd + atWr);
    }
  }

  /** A latency and a rate for each direction of each disk that has either, with the labels and numbers of that
      disk. */
  method Collect(vms: seq<VmiResult>) returns (out: seq<Metric>, ghost at: seq<Subject>)
    ensures Emits(vms, at, out)
    ensures forall m :: m in out ==> IsDue(vms, m)
  {
    out, at := [], [];
    PicksNone(Differ(), DueVms(vms, 0), FitsIn(vms));
    for i := 0 to |vms|
      invariant Picks(Differ(), DueVms(vms, i), FitsIn(vms), at, out)
    {
      var more, ats := EmitDisks(vms, i);
      PicksConcat(Differ(), DueVms(vms, i), DueDisks(vms, i, |vms[i].disks|), DueVms(vms, i + 1), FitsIn(vms),
                  at, out, ats, more);
      out, at := out + more, at + ats;
    }
    PicksIsEmits(vms, at, out);
    AllAreDue(vms, at, out);
  }

  /** The metric is of some subject that is due. */
  ghost predicate IsDue(vms: seq<VmiResult>, m: Metric) { exists s :: Due(vms, s) && Fits(vms, s, m) }

  lemma AllAreDue(vms: seq<VmiResult>, at: seq<Subject>, out: seq<Metric>)
    requires Emits(vms, at, out)
    ensures forall m :: m in out ==> IsDue(vms, m)
  {
    forall m | m in out ensures IsDue(vms, m) {
      var j :| 0 <= j < |out| && out[j] == m;
      assert at[j] in at && Fits(vms, at[j], m);
    }
  }

  lemma PicksIsEmits(vms: seq<VmiResult>, at: seq<Subject>, out: seq<Metric>)
    requires Picks(Differ(), DueVms(vms, |vms|), FitsIn(vms), at, out)
    ensures Emits(vms, at, out)
  {
    forall i, j | 0 <= i < j < |at| ensures at[i] != at[j] { assert Differ()(at[i], at[j]); }
    forall s ensures s in at <==> Due(vms, s) { assert s in at <==> DueVms(vms, |vms|)(s); }
    forall j | 0 <= j < |at| ensures Fits(vms, at[j], out[j]) { assert FitsIn(vms)(at[j], out[j]); }
  }

  // ---- Labels ----

  /** No two disks of the results have one drive name in one VM, and no two VMs one pod. */
  ghost predicate Identified(vms: seq<VmiResult>) {
    && (forall i, j :: 0 <= i < j < |vms| ==> vms[i].pod != vms[j].pod || vms[i].namespace != vms[j].namespace)
    && forall i :: 0 <= i < |vms| ==> DistinctDrives(vms[i].disks)
  }

  ghost predicate DistinctDrives(disks: seq<EnrichedDisk>) {
    forall a, b :: 0 <= a < b < |disks| ==> disks[a].metrics.name != disks[b].metrics.name
  }

  /** The disks of a scrape have different drive names. */
  lemma ScrapedDrivesDiffer(disks: seq<EnrichedDisk>, names: seq<string>, run: seq<Option<Snapshot>>,
                            counters: seq<DiskCounters>, named: seq<NamedDisk>)
    requires IsScraped(disks, names, run, Some(LastByName(counters)), named)
    ensures DistinctDrives(disks)
  {
    forall j | 0 <= j < |disks| ensures disks[j].metrics.name == names[j] {
      assert names[j] in names;
      KeyedByName(counters, names[j]);
    }
  }

  lemma {:induction false} KeyedByName(counters: seq<DiskCounters>, name: string)
    ensures name in LastByName(counters) ==> LastByName(counters)[name].name == name
  {
    if counters != [] { KeyedByName(counters[..|counters| - 1], name); }
  }

  /** So no two gauges of one kind carry the same labels. */
  lemma GaugeLabelsDistinct(vms: seq<VmiResult>, at: seq<Subject>, out: seq<Metric>, i: nat, j: nat)
    requires Emits(vms, at, out) && Identified(vms) && i < j < |out| && (out[i].IopsGauge? <==> out[j].IopsGauge?)
    ensures out[i].labels != out[j].labels
  {
    var s, t := at[i], at[j];
    assert Fits(vms, s, out[i]) && Fits(vms, t, out[j]);
    assert "write"[0] != "read"[0];
    assert DistinctDrives(vms[s.i].disks);
  }
}

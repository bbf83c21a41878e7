/** pkg/qga/types.go and the snapshot diffing of pkg/qga/collector.go: guest latency and IOPS from two
    raw counter snapshots by Little's law, over any run of polls with failures in between. */
module QgaMetrics {
  import opened Bits

  datatype DiskCounters = DiskCounters(
    name: string, rdQueueLen: u64, wrQueueLen: u64, rdOps: u64, wrOps: u64, timestamp100ns: u64)

  datatype DiskMetrics = DiskMetrics(
    name: string, rdLatSec: real, wrLatSec: real, rdIops: real, wrIops: real, elapsedSec: real)

  /** Guest clock ticks per second. */
  const TICKS: real := 10000000.0

  /** Subtraction of unsigned 64-bit integers. */
  function Sub64(a: u64, b: u64): u64 { (a - b) % TWO_64 }

  function LatSec(queueLen: u64, ops: u64): real {
    if ops > 0 then queueLen as real / ops as real / TICKS else 0.0
  }

  function Iops(ops: u64, elapsed: real): real
    requires elapsed > 0.0
  {
    if ops > 0 then ops as real / elapsed else 0.0
  }

  function ComputeMetrics(prev: DiskCounters, curr: DiskCounters): DiskMetrics {
    if curr.timestamp100ns <= prev.timestamp100ns then DiskMetrics(curr.name, 0.0, 0.0, 0.0, 0.0, 0.0)
    else
      var elapsed := (curr.timestamp100ns - prev.timestamp100ns) as real / TICKS;
      var rdOps, wrOps := Sub64(curr.rdOps, prev.rdOps), Sub64(curr.wrOps, prev.wrOps);
      DiskMetrics(
        curr.name,
        LatSec(Sub64(curr.rdQueueLen, prev.rdQueueLen), rdOps),
        LatSec(Sub64(curr.wrQueueLen, prev.wrQueueLen), wrOps),
        Iops(rdOps, elapsed), Iops(wrOps, elapsed), elapsed)
  }

  /** Throughput times elapsed time is the number of operations. */
  ghost predicate IsRate(iops: real, elapsed: real, ops: u64) { iops * elapsed == ops as real }

  lemma OpsInInterval(ops: u64, elapsed: real)
    requires elapsed > 0.0
    ensures IsRate(Iops(ops, elapsed), elapsed, ops)
  {
  }

  lemma QueueInInterval(queue: real, ops: real, ticks: real)
    requires ops > 0.0 && ticks > 0.0
    ensures (queue / ops / TICKS) * (ops / (ticks / TICKS)) == queue / ticks
  {
    var lat, rate := queue / ops / TICKS, ops / (ticks / TICKS);
    assert (lat * TICKS) * ops == queue;
    assert rate * (ticks / TICKS) == ops;
    SameQuotient(lat, rate, ops, queue, ticks);
  }

  lemma SameQuotient(lat: real, rate: real, ops: real, queue: real, ticks: real)
    requires ticks > 0.0 && (lat * TICKS) * ops == queue && rate * (ticks / TICKS) == ops
    ensures lat * rate == queue / ticks
  {
    assert rate * ticks == ops * TICKS;
    assert (lat * rate) * ticks == lat * (rate * ticks);
    assert lat * (ops * TICKS) == (lat * TICKS) * ops;
    assert (lat * rate) * ticks == queue;
  }

  /** Latency times throughput is the mean queue depth: accumulated depth over elapsed ticks. */
  ghost predicate IsDepth(lat: real, iops: real, queue: u64, ticks: real)
    requires ticks > 0.0
  {
    lat * iops == queue as real / ticks
  }

  lemma DepthLaw(queue: u64, ops: u64, ticks: real)
    requires ticks > 0.0
    ensures ops > 0 ==> IsDepth(LatSec(queue, ops), Iops(ops, ticks / TICKS), queue, ticks)
  {
    if ops > 0 { QueueInInterval(queue as real, ops as real, ticks); }
  }

  lemma ThroughputLaw(prev: DiskCounters, curr: DiskCounters)
    requires prev.timestamp100ns < curr.timestamp100ns
    ensures var m := ComputeMetrics(prev, curr);
      && m.elapsedSec > 0.0
      && IsRate(m.rdIops, m.elapsedSec, Sub64(curr.rdOps, prev.rdOps))
      && IsRate(m.wrIops, m.elapsedSec, Sub64(curr.wrOps, prev.wrOps))
  {
    var elapsed := (curr.timestamp100ns - prev.timestamp100ns) as real / TICKS;
    OpsInInterval(Sub64(curr.rdOps, prev.rdOps), elapsed);
    OpsInInterval(Sub64(curr.wrOps, prev.wrOps), elapsed);
  }

  /** Little's law holds between the exported numbers on every interval with operations: latency times
      IOPS is the mean queue depth. */
  lemma LittlesLaw(prev: DiskCounters, curr: DiskCounters)
    requires prev.timestamp100ns < curr.timestamp100ns
    ensures var m, ticks := ComputeMetrics(prev, curr), (curr.timestamp100ns - prev.timestamp100ns) as real;
      && (curr.rdOps != prev.rdOps ==> IsDepth(m.rdLatSec, m.rdIops, Sub64(curr.rdQueueLen, prev.rdQueueLen), ticks))
      && (curr.wrOps != prev.wrOps ==> IsDepth(m.wrLatSec, m.wrIops, Sub64(curr.wrQueueLen, prev.wrQueueLen), ticks))
  {
    var ticks := (curr.timestamp100ns - prev.timestamp100ns) as real;
    DepthLaw(Sub64(curr.rdQueueLen, prev.rdQueueLen), Sub64(curr.rdOps, prev.rdOps), ticks);
    DepthLaw(Sub64(curr.wrQueueLen, prev.wrQueueLen), Sub64(curr.wrOps, prev.wrOps), ticks);
  }

  /** What is exported for one direction of an interval of this many 100 ns ticks: nothing without operations, and
      otherwise the mean time of an operation in seconds, and operations per second. */
  ghost predicate InSeconds(lat: real, iops: real, queue: nat, ops: nat, ticks: nat) {
    if ops == 0 then lat == 0.0 && iops == 0.0
    else lat * ops as real * 10000000.0 == queue as real && iops * ticks as real == ops as real * 10000000.0
  }

  lemma ScaleOfLatency(queue: u64, ops: u64)
    requires ops > 0
    ensures LatSec(queue, ops) * ops as real * 10000000.0 == queue as real
  {
    var q := queue as real / ops as real;
    assert q * ops as real == queue as real;
    assert LatSec(queue, ops) * 10000000.0 == q;
  }

  lemma ScaleOfRate(ops: u64, ticks: nat)
    requires ops > 0 && ticks > 0
    ensures Iops(ops, ticks as real / TICKS) * ticks as real == ops as real * 10000000.0
  {
    var elapsed := ticks as real / TICKS;
    OpsInInterval(ops, elapsed);
    ScaleBy(Iops(ops, elapsed), elapsed, ticks as real, ops as real);
  }

  lemma ScaleBy(rate: real, elapsed: real, ticks: real, ops: real)
    requires rate * elapsed == ops && elapsed * 10000000.0 == ticks
    ensures rate * ticks == ops * 10000000.0
  {
    assert rate * (elapsed * 10000000.0) == (rate * elapsed) * 10000000.0;
  }

  /** The metrics of the interval between two rows of a disk: elapsed seconds are 100 ns ticks divided by ten million,
      latencies are seconds and rates are per second, over the differences of the counters modulo 2^64. */
  ghost predicate Measures(m: DiskMetrics, prev: DiskCounters, curr: DiskCounters) {
    && m.name == curr.name && prev.timestamp100ns < curr.timestamp100ns
    && var ticks := curr.timestamp100ns - prev.timestamp100ns;
       && m.elapsedSec * 10000000.0 == ticks as real
       && InSeconds(m.rdLatSec, m.rdIops, (curr.rdQueueLen - prev.rdQueueLen) % TWO_64,
                    (curr.rdOps - prev.rdOps) % TWO_64, ticks)
       && InSeconds(m.wrLatSec, m.wrIops, (curr.wrQueueLen - prev.wrQueueLen) % TWO_64,
                    (curr.wrOps - prev.wrOps) % TWO_64, ticks)
  }

  /** The metrics are those of the interval; a clock that did not advance gives zeros. */
  lemma MetricsAreInSeconds(prev: DiskCounters, curr: DiskCounters)
    ensures var m := ComputeMetrics(prev, curr);
      if prev.timestamp100ns < curr.timestamp100ns then Measures(m, prev, curr)
      else m.name == curr.name && m.elapsedSec == m.rdLatSec == m.wrLatSec == m.rdIops == m.wrIops == 0.0
  {
    if prev.timestamp100ns < curr.timestamp100ns {
      var ticks := curr.timestamp100ns - prev.timestamp100ns;
      DirectionInSeconds(Sub64(curr.rdQueueLen, prev.rdQueueLen), Sub64(curr.rdOps, prev.rdOps), ticks);
      DirectionInSeconds(Sub64(curr.wrQueueLen, prev.wrQueueLen), Sub64(curr.wrOps, prev.wrOps), ticks);
    }
  }

  lemma DirectionInSeconds(queue: u64, ops: u64, ticks: nat)
    requires ticks > 0
    ensures InSeconds(LatSec(queue, ops), Iops(ops, ticks as real / TICKS), queue, ops, ticks)
  {
    if ops > 0 {
      ScaleOfLatency(queue, ops);
      ScaleOfRate(ops, ticks);
    }
  }

  // ---- Runs of polls ----

  type Snapshot = map<string, DiskCounters>

  /** The latest successful snapshot of a run; a failed scrape leaves the previous one in place. */
  function Latest(run: seq<Option<Snapshot>>): Option<Snapshot> {
    if run == [] then None
    else if run[|run| - 1].Some? then run[|run| - 1] else Latest(run[..|run| - 1])
  }

  function Earliest(run: seq<Option<Snapshot>>): Option<Snapshot> {
    if run == [] then None
    else
      var e := Earliest(run[..|run| - 1]);
      if e.Some? then e else run[|run| - 1]
  }

  /** What poll |run|-1 exports for a disk, if anything. */
  function Exported(run: seq<Option<Snapshot>>, name: string): Option<DiskMetrics>
    requires run != []
  {
    var prev, curr := Latest(run[..|run| - 1]), run[|run| - 1];
    if prev.Some? && curr.Some? && name in prev.value && name in curr.value
       && ComputeMetrics(prev.value[name], curr.value[name]).elapsedSec > 0.0
    then Some(ComputeMetrics(prev.value[name], curr.value[name])) else None
  }

  /** A disk is exported exactly if the poll succeeded and has it, and the latest successful poll before had it at an
      earlier guest time; its numbers are then those of the interval between the two. */
  lemma ExportedIff(run: seq<Option<Snapshot>>, name: string)
    requires run != []
    ensures var p, curr := Latest(run[..|run| - 1]), run[|run| - 1];
      Exported(run, name).Some? <==>
        && p.Some? && curr.Some? && name in p.value && name in curr.value
        && p.value[name].timestamp100ns < curr.value[name].timestamp100ns
    ensures Exported(run, name).Some? ==>
      Measures(Exported(run, name).value, Latest(run[..|run| - 1]).value[name], run[|run| - 1].value[name])
  {
    var p, curr := Latest(run[..|run| - 1]), run[|run| - 1];
    if p.Some? && curr.Some? && name in p.value && name in curr.value {
      MetricsAreInSeconds(p.value[name], curr.value[name]);
    }
  }

  /** Operations that the exported rates of a run add up to. */
  function RdWork(run: seq<Option<Snapshot>>, name: string): real {
    if run == [] then 0.0
    else
      RdWork(run[..|run| - 1], name) +
      match Exported(run, name) case None => 0.0 case Some(m) => m.rdIops * m.elapsedSec
  }

  function WrWork(run: seq<Option<Snapshot>>, name: string): real {
    if run == [] then 0.0
    else
      WrWork(run[..|run| - 1], name) +
      match Exported(run, name) case None => 0.0 case Some(m) => m.wrIops * m.elapsedSec
  }

  /** The disk is in every successful snapshot, and from one to the next the guest clock advances and the
      operation counters do not step back. */
  ghost predicate Advancing(run: seq<Option<Snapshot>>, name: string) {
    run == [] ||
    (&& Advancing(run[..|run| - 1], name)
     && (run[|run| - 1].Some? ==> name in run[|run| - 1].value)
     && (run[|run| - 1].Some? && Latest(run[..|run| - 1]).Some? && name in Latest(run[..|run| - 1]).value ==>
           var p, c := Latest(run[..|run| - 1]).value[name], run[|run| - 1].value[name];
           p.timestamp100ns < c.timestamp100ns && p.rdOps <= c.rdOps && p.wrOps <= c.wrOps))
  }

  lemma {:induction false} AdvancingKeepsDisk(run: seq<Option<Snapshot>>, name: string)
    requires Advancing(run, name)
    ensures Latest(run).Some? <==> Earliest(run).Some?
    ensures Latest(run).Some? ==> name in Latest(run).value && name in Earliest(run).value
  {
    if run != [] { AdvancingKeepsDisk(run[..|run| - 1], name); }
  }

  /** The last poll of a run adds the operations since the latest snapshot before it. */
  lemma LastPollWork(run: seq<Option<Snapshot>>, name: string)
    requires run != [] && Advancing(run, name)
    ensures var p, curr := run[..|run| - 1], run[|run| - 1];
      if curr.Some? && Latest(p).Some? then
        && name in curr.value && name in Latest(p).value
        && RdWork(run, name) == RdWork(p, name) + (curr.value[name].rdOps - Latest(p).value[name].rdOps) as real
        && WrWork(run, name) == WrWork(p, name) + (curr.value[name].wrOps - Latest(p).value[name].wrOps) as real
      else RdWork(run, name) == RdWork(p, name) && WrWork(run, name) == WrWork(p, name)
  {
    var p, curr := run[..|run| - 1], run[|run| - 1];
    AdvancingKeepsDisk(p, name);
    if curr.Some? && Latest(p).Some? {
      ThroughputLaw(Latest(p).value[name], curr.value[name]);
    }
  }

  /** Telescoping: whatever failures come in between, the exported read and write rates account for every
      operation between the first and the last successful snapshot, once. */
  lemma {:induction false} RatesAccountForAllOperations(run: seq<Option<Snapshot>>, name: string)
    requires Advancing(run, name)
    ensures Latest(run).None? ==> RdWork(run, name) == 0.0 && WrWork(run, name) == 0.0
    ensures Latest(run).Some? ==>
      && Earliest(run).Some? && name in Latest(run).value && name in Earliest(run).value
      && RdWork(run, name) == (Latest(run).value[name].rdOps - Earliest(run).value[name].rdOps) as real
      && WrWork(run, name) == (Latest(run).value[name].wrOps - Earliest(run).value[name].wrOps) as real
  {
    if run != [] {
      RatesAccountForAllOperations(run[..|run| - 1], name);
      AdvancingKeepsDisk(run, name);
      AdvancingKeepsDisk(run[..|run| - 1], name);
      LastPollWork(run, name);
    }
  }

  // ---- The 32-bit operation counter ----

  /** Windows keeps the operation count modulo 2^32, but the difference is taken modulo 2^64. */
  function Reported(trueOps: nat): u64 { trueOps % TWO_32 }

  /** The operations computed for an interval are the true ones exactly when the 32-bit counter did not
      wrap within it. */
  lemma DeltaTrueIffNoWrap(before: nat, after: nat)
    requires before <= after < TWO_64
    ensures Sub64(Reported(after), Reported(before)) == after - before <==> before / TWO_32 == after / TWO_32
  {
    var q, r := after / TWO_32 - before / TWO_32, Reported(after) - Reported(before);
    assert after - before == q * TWO_32 + r;
    if r < 0 { assert Sub64(Reported(after), Reported(before)) == r + TWO_64; }
  }

  /** One write past the wrap is exported as more than 2^63 operations. */
  lemma WrapIsExportedAsHuge(before: u64)
    requires Reported(before) == TWO_32 - 1
    ensures Sub64(Reported(before + 1), Reported(before)) > TWO_63
  {
  }

  // ---- The collector's per-VM state ----

  class VmSnapshots {
    var prevSnapshot: Option<Snapshot>

    constructor ()
      ensures prevSnapshot == None
    {
      prevSnapshot := None;
    }

    /** The diffing part of scrapeVM; `run` is the VM's history of polls so far. */
    method Scrape(counters: Option<seq<DiskCounters>>, ghost run: seq<Option<Snapshot>>)
      returns (disks: map<string, DiskMetrics>, ghost outcome: Option<Snapshot>)
      requires prevSnapshot == Latest(run)
      modifies this
      ensures outcome.Some? <==> counters.Some?
      ensures counters.Some? ==> outcome.value == LastByName(counters.value)
      ensures prevSnapshot == Latest(run + [outcome])
      ensures forall name :: name in disks <==> Exported(run + [outcome], name).Some?
      ensures forall name :: name in disks ==> Exported(run + [outcome], name) == Some(disks[name])
    {
      disks := map[];
      assert forall o: Option<Snapshot> :: (run + [o])[..|run|] == run;
      if counters.None? {
        outcome := None;
        return;
      }
      var curr := IndexByName(counters.value);
      outcome := Some(curr);
      if prevSnapshot.Some? {
        var prev := prevSnapshot.value;
        var todo := curr.Keys;
        while todo != {}
          invariant todo <= curr.Keys
          invariant forall name :: name in disks <==> name in curr.Keys - todo && Exported(run + [outcome], name).Some?
          invariant forall name :: name in disks ==> Exported(run + [outcome], name) == Some(disks[name])
        {
          var name :| name in todo;
          todo := todo - {name};
          if name in prev {
            var m := ComputeMetrics(prev[name], curr[name]);
            if m.elapsedSec > 0.0 {
              disks := disks[name := m];
            }
          }
        }
      }
      prevSnapshot := Some(curr);
    }

    method IndexByName(counters: seq<DiskCounters>) returns (curr: Snapshot)
      ensures curr == LastByName(counters)
    {
      curr := map[];
      for i := 0 to |counters|
        invariant curr == LastByName(counters[..i])
      {
        assert counters[..i + 1][..i] == counters[..i];
        curr := curr[counters[i].name := counters[i]];
      }
      assert counters[..|counters|] == counters;
    }
  }

  /** Counters by disk name; of two rows with one name the later counts. */
  function LastByName(counters: seq<DiskCounters>): Snapshot {
    if counters == [] then map[]
    else LastByName(counters[..|counters| - 1])[counters[|counters| - 1].name := counters[|counters| - 1]]
  }

  ghost predicate IsLastRow(counters: seq<DiskCounters>, i: int, name: string) {
    && 0 <= i < |counters| && counters[i].name == name
    && forall j :: i < j < |counters| ==> counters[j].name != name
  }

  /** A snapshot has the disks of its rows... */
  lemma {:induction false} SnapshotHasRows(counters: seq<DiskCounters>, name: string)
    ensures name in LastByName(counters) <==> exists i :: 0 <= i < |counters| && counters[i].name == name
  {
    if counters != [] {
      var n, init := |counters| - 1, counters[..|counters| - 1];
      SnapshotHasRows(init, name);
      assert forall i :: 0 <= i < n ==> init[i] == counters[i];
    }
  }

  /** ... each with the last row of its name. */
  lemma {:induction false} LastRowIsKept(counters: seq<DiskCounters>, i: nat, name: string)
    requires IsLastRow(counters, i, name)
    ensures name in LastByName(counters) && LastByName(counters)[name] == counters[i]
  {
    var n := |counters| - 1;
    if i < n {
      assert counters[n].name != name;
      LastRowIsKept(counters[..n], i, name);
    }
  }
}

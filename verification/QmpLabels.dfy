/** When the label sets that pkg/qmp/collector.go's Collect emits are pairwise distinct, as a Prometheus
    scrape requires. */
module QmpLabels {
  import opened Bits
  import opened Containers
  import opened GoText
  import opened QmpScrape
  import opened QmpConnections
  import opened Seqs

  /** Labels of a latency histogram and of a virtqueue gauge. */
  datatype LatencyLabels = LatencyLabels(namespace: string, name: string, node: string, pod: string, disk: string,
                                         pvc: string, op: string)
  datatype QueueLabels = QueueLabels(
    namespace: string, name: string, node: string, pod: string, disk: string, pvc: string, queue: string, bus: string)

  function Latency(v: Vmi, d: DeviceResult, op: string): LatencyLabels {
    LatencyLabels(v.pod.namespace, v.pod.vmi, v.node, v.pod.name, d.disk, d.pvc, op)
  }

  function Queue(v: Vmi, q: VirtqueueResult): QueueLabels {
    QueueLabels(v.pod.namespace, v.pod.vmi, v.node, v.pod.name, q.vq.disk, q.pvc, Decimal(q.vq.queue), q.vq.bus)
  }

  // ---- One VM's virtqueues ----

  function Key(q: Virtqueue): (string, string, nat) { (q.disk, q.bus, q.queue) }

  ghost predicate Distinct(qs: seq<Virtqueue>) {
    forall i, j :: 0 <= i < j < |qs| ==> Key(qs[i]) != Key(qs[j])
  }

  /** Some queue in the list has this key. */
  ghost predicate Listed(qs: seq<Virtqueue>, key: (string, string, nat)) {
    exists i :: 0 <= i < |qs| && Key(qs[i]) == key
  }

  ghost predicate Apart(a: seq<Virtqueue>, b: seq<Virtqueue>) {
    forall i, j :: 0 <= i < |a| && 0 <= j < |b| ==> Key(a[i]) != Key(b[j])
  }

  lemma ListedConcat(a: seq<Virtqueue>, b: seq<Virtqueue>, key: (string, string, nat))
    ensures Listed(a + b, key) <==> Listed(a, key) || Listed(b, key)
  {
    var c := a + b;
    if i :| 0 <= i < |a| && Key(a[i]) == key { assert c[i] == a[i]; }
    if i :| 0 <= i < |b| && Key(b[i]) == key { assert c[|a| + i] == b[i]; }
    if i :| 0 <= i < |c| && Key(c[i]) == key {
      if i < |a| { assert c[i] == a[i]; } else { assert c[i] == b[i - |a|]; }
    }
  }

  lemma DistinctConcat(a: seq<Virtqueue>, b: seq<Virtqueue>)
    ensures Distinct(a + b) <==> Distinct(a) && Distinct(b) && Apart(a, b)
  {
    var c := a + b;
    if Distinct(c) {
      forall i, j | 0 <= i < j < |a| ensures Key(a[i]) != Key(a[j]) { assert c[i] == a[i] && c[j] == a[j]; }
      forall i, j | 0 <= i < j < |b| ensures Key(b[i]) != Key(b[j]) { assert c[|a| + i] == b[i] && c[|a| + j] == b[j]; }
      forall i, j | 0 <= i < |a| && 0 <= j < |b| ensures Key(a[i]) != Key(b[j]) {
        assert c[i] == a[i] && c[|a| + j] == b[j];
      }
    }
  }

  lemma ListedInBoth(a: seq<Virtqueue>, b: seq<Virtqueue>, key: (string, string, nat))
    requires Listed(a, key) && Listed(b, key)
    ensures !Apart(a, b)
  {
  }

  /** The queue indices of a device for which QEMU answers. */
  ghost predicate AnswersFor(cache: map<string, int>, v: Virtio, d: VirtioDevice, qi: nat) {
    var n := CountFor(cache, v, d.path);
    n.Some? && qi < n.value && (d.path, qi) in v.queues
  }

  lemma {:induction false} QueuesListed(v: Virtio, path: string, disk: string, bus: string, n: nat,
                                        key: (string, string, nat))
    ensures Listed(QueuesOf(v, path, disk, bus, n), key) <==>
      key.0 == disk && key.1 == bus && key.2 < n && (path, key.2) in v.queues
  {
    if n > 0 {
      QueuesListed(v, path, disk, bus, n - 1, key);
      if (path, n - 1) in v.queues {
        var last := [Virtqueue(disk, bus, n - 1, v.queues[(path, n - 1)])];
        ListedConcat(QueuesOf(v, path, disk, bus, n - 1), last, key);
        assert Listed(last, key) <==> Key(last[0]) == key;
      } else {
        assert QueuesOf(v, path, disk, bus, n) == QueuesOf(v, path, disk, bus, n - 1);
      }
    }
  }

  lemma {:induction false} QueuesDistinct(v: Virtio, path: string, disk: string, bus: string, n: nat)
    ensures Distinct(QueuesOf(v, path, disk, bus, n))
  {
    if n > 0 {
      QueuesDistinct(v, path, disk, bus, n - 1);
      var p := QueuesOf(v, path, disk, bus, n - 1);
      forall i | 0 <= i < |p| ensures p[i].queue < n - 1 {
        QueuesListed(v, path, disk, bus, n - 1, Key(p[i]));
      }
    }
  }

  ghost function Queues(cache: map<string, int>, v: Virtio, d: VirtioDevice, scsi: bool): seq<Virtqueue> {
    DeviceQueues(cache, v, d, Label(d, scsi), Bus(scsi))
  }

  /** This device contributes a queue with this key. */
  ghost predicate Owns(cache: map<string, int>, v: Virtio, scsi: bool, d: VirtioDevice, key: (string, string, nat)) {
    Label(d, scsi) == Some(key.0) && key.1 == Bus(scsi) && AnswersFor(cache, v, d, key.2)
  }

  lemma DeviceListed(cache: map<string, int>, v: Virtio, d: VirtioDevice, scsi: bool, key: (string, string, nat))
    ensures Listed(Queues(cache, v, d, scsi), key) <==> Owns(cache, v, scsi, d, key)
  {
    var n, l := CountFor(cache, v, d.path), Label(d, scsi);
    if l.Some? && n.Some? && n.value > 0 {
      QueuesListed(v, d.path, l.value, Bus(scsi), n.value, key);
    }
  }

  lemma DeviceDistinct(cache: map<string, int>, v: Virtio, d: VirtioDevice, scsi: bool)
    ensures Distinct(Queues(cache, v, d, scsi))
  {
    var n, l := CountFor(cache, v, d.path), Label(d, scsi);
    if l.Some? && n.Some? && n.value > 0 {
      QueuesDistinct(v, d.path, l.value, Bus(scsi), n.value);
    }
  }

  /** The keys listed for one bus are those its devices contribute. */
  lemma {:induction false} BusListed(cache: map<string, int>, v: Virtio, scsi: bool, k: nat, key: (string, string, nat))
    requires k <= |v.devices|
    ensures Listed(BusQueues(cache, v, scsi, k), key) <==> SomeOwns(cache, v, scsi, k, key)
  {
    if k > 0 {
      BusListed(cache, v, scsi, k - 1, key);
      DeviceListed(cache, v, v.devices[k - 1], scsi, key);
      ListedConcat(BusQueues(cache, v, scsi, k - 1), Queues(cache, v, v.devices[k - 1], scsi), key);
      SomeOwnsOneMore(cache, v, scsi, k, key);
    }
  }

  ghost predicate SomeOwns(cache: map<string, int>, v: Virtio, scsi: bool, k: nat, key: (string, string, nat))
    requires k <= |v.devices|
  {
    exists a :: 0 <= a < k && Owns(cache, v, scsi, v.devices[a], key)
  }

  lemma SomeOwnsOneMore(cache: map<string, int>, v: Virtio, scsi: bool, k: nat, key: (string, string, nat))
    requires 0 < k <= |v.devices|
    ensures SomeOwns(cache, v, scsi, k, key) <==>
      (SomeOwns(cache, v, scsi, k - 1, key) || Owns(cache, v, scsi, v.devices[k - 1], key))
  {
  }

  /** Two devices that share a label answer for a common queue index. */
  ghost predicate Clash(cache: map<string, int>, v: Virtio, scsi: bool, a: VirtioDevice, b: VirtioDevice) {
    Label(a, scsi).Some? && Label(a, scsi) == Label(b, scsi) && exists qi: nat ::
      AnswersFor(cache, v, a, qi) && AnswersFor(cache, v, b, qi)
  }

  ghost predicate NoClash(cache: map<string, int>, v: Virtio, scsi: bool, k: nat)
    requires k <= |v.devices|
  {
    forall a, b :: 0 <= a < b < k ==> !Clash(cache, v, scsi, v.devices[a], v.devices[b])
  }

  /** The queues listed for a bus are distinct exactly when no two devices with one label answer for a common
      queue. */
  lemma {:induction false} BusDistinctIff(cache: map<string, int>, v: Virtio, scsi: bool, k: nat)
    requires k <= |v.devices|
    ensures Distinct(BusQueues(cache, v, scsi, k)) <==> NoClash(cache, v, scsi, k)
  {
    if k > 0 {
      BusDistinctIff(cache, v, scsi, k - 1);
      DeviceDistinct(cache, v, v.devices[k - 1], scsi);
      DistinctConcat(BusQueues(cache, v, scsi, k - 1), Queues(cache, v, v.devices[k - 1], scsi));
      ApartIff(cache, v, scsi, k);
      NoClashOneMore(cache, v, scsi, k);
    }
  }

  /** The last of the first k devices clashes with none before it. */
  ghost predicate LastNoClash(cache: map<string, int>, v: Virtio, scsi: bool, k: nat)
    requires 0 < k <= |v.devices|
  {
    forall a :: 0 <= a < k - 1 ==> !Clash(cache, v, scsi, v.devices[a], v.devices[k - 1])
  }

  lemma NoClashOneMore(cache: map<string, int>, v: Virtio, scsi: bool, k: nat)
    requires 0 < k <= |v.devices|
    ensures NoClash(cache, v, scsi, k) <==> NoClash(cache, v, scsi, k - 1) && LastNoClash(cache, v, scsi, k)
  {
  }

  lemma ApartIff(cache: map<string, int>, v: Virtio, scsi: bool, k: nat)
    requires 0 < k <= |v.devices|
    ensures Apart(BusQueues(cache, v, scsi, k - 1), Queues(cache, v, v.devices[k - 1], scsi)) <==>
      LastNoClash(cache, v, scsi, k)
  {
    if a :| 0 <= a < k - 1 && Clash(cache, v, scsi, v.devices[a], v.devices[k - 1]) {
      ClashNotApart(cache, v, scsi, k, a);
    } else {
      NoClashApart(cache, v, scsi, k);
    }
  }

  lemma ClashNotApart(cache: map<string, int>, v: Virtio, scsi: bool, k: nat, a: nat)
    requires 0 < k <= |v.devices| && a < k - 1 && Clash(cache, v, scsi, v.devices[a], v.devices[k - 1])
    ensures !Apart(BusQueues(cache, v, scsi, k - 1), Queues(cache, v, v.devices[k - 1], scsi))
  {
    var d := v.devices[k - 1];
    var qi: nat :| AnswersFor(cache, v, v.devices[a], qi) && AnswersFor(cache, v, d, qi);
    var key := (Label(d, scsi).value, Bus(scsi), qi);
    assert Owns(cache, v, scsi, v.devices[a], key);
    BusListed(cache, v, scsi, k - 1, key);
    DeviceListed(cache, v, d, scsi, key);
    ListedInBoth(BusQueues(cache, v, scsi, k - 1), Queues(cache, v, d, scsi), key);
  }

  lemma NoClashApart(cache: map<string, int>, v: Virtio, scsi: bool, k: nat)
    requires 0 < k <= |v.devices|
    requires forall a :: 0 <= a < k - 1 ==> !Clash(cache, v, scsi, v.devices[a], v.devices[k - 1])
    ensures Apart(BusQueues(cache, v, scsi, k - 1), Queues(cache, v, v.devices[k - 1], scsi))
  {
    var d := v.devices[k - 1];
    var p, q := BusQueues(cache, v, scsi, k - 1), Queues(cache, v, d, scsi);
    forall i, j | 0 <= i < |p| && 0 <= j < |q| ensures Key(p[i]) != Key(q[j]) {
      BusListed(cache, v, scsi, k - 1, Key(p[i]));
      DeviceListed(cache, v, d, scsi, Key(q[j]));
      var a :| 0 <= a < k - 1 && Owns(cache, v, scsi, v.devices[a], Key(p[i]));
      var e := v.devices[a];
      assert Key(p[i]) == Key(q[j]) ==> Clash(cache, v, scsi, e, d);
    }
  }

  /** No two virtqueues of one scrape agree in disk, bus and queue index exactly when neither bus has two devices
      of one label answering for a common queue index. */
  lemma VirtqueueLabelsDistinctIff(cache: map<string, int>, v: Virtio)
    ensures Distinct(AllQueues(cache, v)) <==>
      NoClash(cache, v, false, |v.devices|) && NoClash(cache, v, true, |v.devices|)
  {
    var n := |v.devices|;
    var blk, scsi := BusQueues(cache, v, false, n), BusQueues(cache, v, true, n);
    BusDistinctIff(cache, v, false, n);
    BusDistinctIff(cache, v, true, n);
    DistinctConcat(blk, scsi);
    forall i, j | 0 <= i < |blk| && 0 <= j < |scsi| ensures Key(blk[i]) != Key(scsi[j]) {
      BusListed(cache, v, false, n, Key(blk[i]));
      BusListed(cache, v, true, n, Key(scsi[j]));
      assert blk[i].bus == "virtio" && scsi[j].bus == "scsi";
      assert "virtio"[0] == 'v' && "scsi"[0] == 's';
    }
  }

  // ---- With the claim label ----

  /** No two queues of a result carry the same labels. */
  ghost predicate UniqueQueues(qs: seq<VirtqueueResult>) {
    forall a: nat, b: nat :: a < b < |qs| ==> DifferAt(qs, a, b)
  }

  ghost predicate DifferAt(qs: seq<VirtqueueResult>, a: nat, b: nat)
    requires a < |qs| && b < |qs|
  {
    Key(qs[a].vq) != Key(qs[b].vq) || qs[a].pvc != qs[b].pvc
  }

  /** Lookups i and j of one scrape are on different sides of its fetch, and the fetch changes the alias's claim. */
  ghost predicate Straddles(pvcMap: map<string, string>, fetched: map<string, string>, aliases: seq<string>, i: nat,
                            j: nat) {
    && i < FirstBlank(pvcMap, aliases) <= j < |aliases|
    && PvcOf(pvcMap, aliases[i]) != PvcOf(fetched, aliases[i])
  }

  /** One alias gets two labels in one scrape exactly if its claim changes with the fetch in between. */
  lemma SameAliasLabelsDifferIff(
      pvcMap: map<string, string>, fetched: map<string, string>, aliases: seq<string>, i: nat, j: nat)
    requires i < j < |aliases| && aliases[i] == aliases[j]
    ensures Labels(pvcMap, fetched, aliases)[i] != Labels(pvcMap, fetched, aliases)[j] <==>
      Straddles(pvcMap, fetched, aliases, i, j)
  {
  }

  ghost predicate BlkComeFirst(qs: seq<Virtqueue>) {
    forall i :: 0 <= i < |qs| ==> (i < |BlkDisks(qs)| <==> qs[i].bus == "virtio")
  }

  function Aliases(ds: seq<HistDevice>, qs: seq<Virtqueue>): seq<string> { Disks(ds) + BlkDisks(qs) }

  function PvcOfQueue(ds: seq<HistDevice>, qs: seq<Virtqueue>, ls: seq<string>, i: nat): string {
    if |ds| + i < |ls| then ls[|ds| + i] else ""
  }

  lemma SameKeyLabels(
      ds: seq<HistDevice>, qs: seq<Virtqueue>, pvcMap: map<string, string>, fetched: map<string, string>, i: nat,
      j: nat)
    requires BlkComeFirst(qs) && i < j < |qs| && Key(qs[i]) == Key(qs[j])
    ensures var ls := Labels(pvcMap, fetched, Aliases(ds, qs));
      PvcOfQueue(ds, qs, ls, i) != PvcOfQueue(ds, qs, ls, j) <==>
      Straddles(pvcMap, fetched, Aliases(ds, qs), |ds| + i, |ds| + j)
  {
    var aliases := Aliases(ds, qs);
    if |ds| + j < |aliases| {
      assert aliases[|ds| + i] == qs[i].disk && aliases[|ds| + j] == qs[j].disk;
      SameAliasLabelsDifferIff(pvcMap, fetched, aliases, |ds| + i, |ds| + j);
    }
  }

  /** Queues i and j have different keys, or are told apart by a claim that changed between their lookups. */
  ghost predicate ToldApart(
      ds: seq<HistDevice>, qs: seq<Virtqueue>, pvcMap: map<string, string>, fetched: map<string, string>, i: nat,
      j: nat)
    requires i < |qs| && j < |qs|
  {
    Key(qs[i]) != Key(qs[j]) || Straddles(pvcMap, fetched, Aliases(ds, qs), |ds| + i, |ds| + j)
  }

  ghost predicate AllToldApart(
      ds: seq<HistDevice>, qs: seq<Virtqueue>, pvcMap: map<string, string>, fetched: map<string, string>)
  {
    forall i: nat, j: nat :: i < j < |qs| ==> ToldApart(ds, qs, pvcMap, fetched, i, j)
  }

  function LabelledQueues(
      ds: seq<HistDevice>, qs: seq<Virtqueue>, pvcMap: map<string, string>,
      fetched: map<string, string>): seq<VirtqueueResult>
  {
    Labelled(ds, qs, Labels(pvcMap, fetched, Aliases(ds, qs))).virtqueues
  }

  lemma PairDiffersIff(
      ds: seq<HistDevice>, qs: seq<Virtqueue>, pvcMap: map<string, string>, fetched: map<string, string>, i: nat,
      j: nat)
    requires BlkComeFirst(qs) && i < j < |qs|
    ensures |LabelledQueues(ds, qs, pvcMap, fetched)| == |qs|
    ensures DifferAt(LabelledQueues(ds, qs, pvcMap, fetched), i, j) <==> ToldApart(ds, qs, pvcMap, fetched, i, j)
  {
    QueueLabelled(ds, qs, pvcMap, fetched, i);
    QueueLabelled(ds, qs, pvcMap, fetched, j);
    if Key(qs[i]) == Key(qs[j]) {
      SameKeyLabels(ds, qs, pvcMap, fetched, i, j);
    }
  }

  lemma QueueLabelled(
      ds: seq<HistDevice>, qs: seq<Virtqueue>, pvcMap: map<string, string>, fetched: map<string, string>, i: nat)
    requires i < |qs|
    ensures var r := LabelledQueues(ds, qs, pvcMap, fetched);
      |r| == |qs| && r[i] == VirtqueueResult(PvcOfQueue(ds, qs, Labels(pvcMap, fetched, Aliases(ds, qs)), i), qs[i])
  {
  }

  lemma LabelledDistinctIff(ds: seq<HistDevice>, qs: seq<Virtqueue>, pvcMap: map<string, string>,
                            fetched: map<string, string>)
    requires BlkComeFirst(qs)
    ensures UniqueQueues(LabelledQueues(ds, qs, pvcMap, fetched)) <==> AllToldApart(ds, qs, pvcMap, fetched)
  {
    forall i: nat, j: nat | i < j < |qs|
      ensures |LabelledQueues(ds, qs, pvcMap, fetched)| == |qs|
      ensures DifferAt(LabelledQueues(ds, qs, pvcMap, fetched), i, j) <==> ToldApart(ds, qs, pvcMap, fetched, i, j)
    {
      PairDiffersIff(ds, qs, pvcMap, fetched, i, j);
    }
  }

  /** The queue labels a scrape emits are pairwise distinct if and only if any two queues with the same disk, bus
      and index are told apart by a claim that changed between their lookups. */
  lemma QueueLabelsDistinctIff(pvcMap: map<string, string>, cache: map<string, int>, a: Answers)
    requires a.blockStats.Some?
    ensures UniqueQueues(Result(pvcMap, cache, a).virtqueues) <==>
      AllToldApart(HistDevices(a.blockStats.value), ScrapedQueues(cache, a), pvcMap, a.fetched)
  {
    BlkFirst(cache, a);
    LabelledDistinctIff(HistDevices(a.blockStats.value), ScrapedQueues(cache, a), pvcMap, a.fetched);
  }

  /** A scrape looks up a claim for exactly its virtio-blk queues. */
  lemma BlkFirst(cache: map<string, int>, a: Answers)
    ensures BlkComeFirst(ScrapedQueues(cache, a))
  {
    if a.virtio.Some? {
      var v := a.virtio.value;
      var n := |v.devices|;
      BusOf(cache, v, false, n);
      BusOf(cache, v, true, n);
      BlkDisksOfConcat(BusQueues(cache, v, false, n), BusQueues(cache, v, true, n));
    }
  }

  lemma BusOf(cache: map<string, int>, v: Virtio, scsi: bool, k: nat)
    requires k <= |v.devices|
    ensures forall i :: 0 <= i < |BusQueues(cache, v, scsi, k)| ==> BusQueues(cache, v, scsi, k)[i].bus == Bus(scsi)
  {
    var qs := BusQueues(cache, v, scsi, k);
    forall i | 0 <= i < |qs| ensures qs[i].bus == Bus(scsi) {
      BusListed(cache, v, scsi, k, Key(qs[i]));
    }
  }

  lemma {:induction false} BlkDisksOfConcat(blk: seq<Virtqueue>, rest: seq<Virtqueue>)
    requires forall i :: 0 <= i < |blk| ==> blk[i].bus == "virtio"
    requires forall i :: 0 <= i < |rest| ==> rest[i].bus == "scsi"
    ensures |BlkDisks(blk + rest)| == |blk|
  {
    assert "scsi"[0] == 's' && "virtio"[0] == 'v';
    if blk == [] {
      assert blk + rest == rest;
    } else {
      assert (blk + rest)[1..] == blk[1..] + rest;
      BlkDisksOfConcat(blk[1..], rest);
    }
  }

  /** Every claim label of a result is the claim of its own disk. */
  ghost predicate ClaimsTrue(r: VmiResult, truth: map<string, string>) {
    && (forall j :: 0 <= j < |r.devices| ==> r.devices[j].pvc == PvcOf(truth, r.devices[j].disk))
    && (forall j :: 0 <= j < |r.virtqueues| && r.virtqueues[j].vq.bus == "virtio" ==>
          r.virtqueues[j].pvc == PvcOf(truth, r.virtqueues[j].vq.disk))
  }

  /** The claim labels of a result are those of its disks exactly if all lookups of the scrape gave true labels; the
      queues of virtio-scsi controllers have none. */
  lemma ResultClaims(pvcMap: map<string, string>, cache: map<string, int>, a: Answers, s: Scrape)
    requires a.blockStats.Some? && s.aliases == LookedUp(cache, a) && a.fetched == s.Fetched()
    ensures ClaimsTrue(Result(pvcMap, cache, a), s.truth) <==> s.AllTrueFrom(pvcMap)
    ensures forall j :: 0 <= j < |Result(pvcMap, cache, a).virtqueues| ==>
      Result(pvcMap, cache, a).virtqueues[j].vq.bus == "virtio" || Result(pvcMap, cache, a).virtqueues[j].pvc == ""
  {
    var ds, qs, ls := HistDevices(a.blockStats.value), ScrapedQueues(cache, a), s.LabelsFrom(pvcMap);
    BlkFirst(cache, a);
    LabelledClaims(ds, qs, ls, s.truth);
    assert s.AllTrueFrom(pvcMap) <==> LabelsTrue(ls, s.aliases, s.truth);
  }

  ghost predicate LabelsTrue(ls: seq<string>, aliases: seq<string>, truth: map<string, string>)
    requires |ls| == |aliases|
  {
    forall i :: 0 <= i < |ls| ==> ls[i] == PvcOf(truth, aliases[i])
  }

  lemma DeviceClaim(ds: seq<HistDevice>, qs: seq<Virtqueue>, ls: seq<string>, i: nat)
    requires |ls| == |Aliases(ds, qs)| && i < |ds|
    ensures i < |ls| && |Labelled(ds, qs, ls).devices| == |ds|
    ensures Labelled(ds, qs, ls).devices[i].pvc == ls[i] && Labelled(ds, qs, ls).devices[i].disk == Aliases(ds, qs)[i]
  {
  }

  lemma QueueClaim(ds: seq<HistDevice>, qs: seq<Virtqueue>, ls: seq<string>, j: nat)
    requires BlkComeFirst(qs) && |ls| == |Aliases(ds, qs)| && j < |qs|
    ensures |Labelled(ds, qs, ls).virtqueues| == |qs| && Labelled(ds, qs, ls).virtqueues[j].vq == qs[j]
    ensures |ds| + j < |ls| <==> qs[j].bus == "virtio"
    ensures qs[j].bus == "virtio" ==>
      Labelled(ds, qs, ls).virtqueues[j].pvc == ls[|ds| + j] && qs[j].disk == Aliases(ds, qs)[|ds| + j]
    ensures qs[j].bus != "virtio" ==> Labelled(ds, qs, ls).virtqueues[j].pvc == ""
  {
  }

  lemma TrueClaimsHaveTrueLabels(ds: seq<HistDevice>, qs: seq<Virtqueue>, ls: seq<string>, truth: map<string, string>)
    requires BlkComeFirst(qs) && |ls| == |Aliases(ds, qs)| && ClaimsTrue(Labelled(ds, qs, ls), truth)
    ensures LabelsTrue(ls, Aliases(ds, qs), truth)
  {
    forall i | 0 <= i < |ls| ensures ls[i] == PvcOf(truth, Aliases(ds, qs)[i]) {
      if i < |ds| {
        DeviceClaim(ds, qs, ls, i);
      } else {
        QueueClaim(ds, qs, ls, i - |ds|);
      }
    }
  }

  lemma LabelledClaims(ds: seq<HistDevice>, qs: seq<Virtqueue>, ls: seq<string>, truth: map<string, string>)
    requires BlkComeFirst(qs) && |ls| == |Aliases(ds, qs)|
    ensures ClaimsTrue(Labelled(ds, qs, ls), truth) <==> LabelsTrue(ls, Aliases(ds, qs), truth)
    ensures forall j :: 0 <= j < |qs| ==> qs[j].bus == "virtio" || Labelled(ds, qs, ls).virtqueues[j].pvc == ""
  {
    forall j: nat | j < |qs| ensures qs[j].bus == "virtio" || Labelled(ds, qs, ls).virtqueues[j].pvc == "" {
      QueueClaim(ds, qs, ls, j);
    }
    if ClaimsTrue(Labelled(ds, qs, ls), truth) { TrueClaimsHaveTrueLabels(ds, qs, ls, truth); }
    if LabelsTrue(ls, Aliases(ds, qs), truth) { TrueLabelsHaveTrueClaims(ds, qs, ls, truth); }
  }

  lemma TrueLabelsHaveTrueClaims(ds: seq<HistDevice>, qs: seq<Virtqueue>, ls: seq<string>, truth: map<string, string>)
    requires BlkComeFirst(qs) && |ls| == |Aliases(ds, qs)| && LabelsTrue(ls, Aliases(ds, qs), truth)
    ensures ClaimsTrue(Labelled(ds, qs, ls), truth)
  {
    var r := Labelled(ds, qs, ls);
    forall i: nat | i < |ds| ensures r.devices[i].pvc == PvcOf(truth, r.devices[i].disk) { DeviceClaim(ds, qs, ls, i); }
    forall j: nat | j < |qs| && r.virtqueues[j].vq.bus == "virtio"
      ensures r.virtqueues[j].pvc == PvcOf(truth, r.virtqueues[j].vq.disk)
    {
      QueueClaim(ds, qs, ls, j);
    }
  }

  /** With unchanged claims the labels of a scrape are distinct exactly when its queues are. */
  lemma SteadyQueueLabelsDistinctIff(pvcMap: map<string, string>, cache: map<string, int>, a: Answers)
    requires a.blockStats.Some? && StillTrue(pvcMap, a.fetched)
    ensures UniqueQueues(Result(pvcMap, cache, a).virtqueues) <==> Distinct(ScrapedQueues(cache, a))
  {
    QueueLabelsDistinctIff(pvcMap, cache, a);
    NothingToldApart(HistDevices(a.blockStats.value), ScrapedQueues(cache, a), pvcMap, a.fetched);
  }

  lemma NothingToldApart(ds: seq<HistDevice>, qs: seq<Virtqueue>, pvcMap: map<string, string>,
                         fetched: map<string, string>)
    requires StillTrue(pvcMap, fetched)
    ensures AllToldApart(ds, qs, pvcMap, fetched) <==> Distinct(qs)
  {
    NothingStraddles(pvcMap, fetched, Aliases(ds, qs));
    assert forall i: nat, j: nat :: i < j < |qs| ==>
      (ToldApart(ds, qs, pvcMap, fetched, i, j) <==> Key(qs[i]) != Key(qs[j]));
  }

  lemma NothingStraddles(pvcMap: map<string, string>, fetched: map<string, string>, aliases: seq<string>)
    requires StillTrue(pvcMap, fetched)
    ensures forall i: nat, j: nat :: !Straddles(pvcMap, fetched, aliases, i, j)
  {
  }

  /** Two named virtio-scsi controllers that both answer for queue 0 always clash: their disk and claim
      labels are blank. */
  lemma TwoControllersClash(pvcMap: map<string, string>, cache: map<string, int>, a: Answers, x: nat, y: nat)
    requires a.blockStats.Some? && a.virtio.Some?
    requires var ds := a.virtio.value.devices; x < y < |ds| && ScsiLabel(ds[x]).Some? && ScsiLabel(ds[y]).Some?
    requires var v := a.virtio.value; AnswersFor(cache, v, v.devices[x], 0) && AnswersFor(cache, v, v.devices[y], 0)
    ensures !UniqueQueues(Result(pvcMap, cache, a).virtqueues)
  {
    var v := a.virtio.value;
    assert Clash(cache, v, true, v.devices[x], v.devices[y]);
    BusDistinctIff(cache, v, true, |v.devices|);
    BusOf(cache, v, true, |v.devices|);
    BlkFirst(cache, a);
    ScsiClash(HistDevices(a.blockStats.value), BusQueues(cache, v, false, |v.devices|),
      BusQueues(cache, v, true, |v.devices|),
              pvcMap, a.fetched);
  }

  lemma ScsiClash(ds: seq<HistDevice>, blk: seq<Virtqueue>, scsi: seq<Virtqueue>, pvcMap: map<string, string>,
                  fetched: map<string, string>)
    requires BlkComeFirst(blk + scsi) && !Distinct(scsi) && forall i :: 0 <= i < |scsi| ==> scsi[i].bus == "scsi"
    ensures !UniqueQueues(LabelledQueues(ds, blk + scsi, pvcMap, fetched))
  {
    var qs, n := blk + scsi, |blk|;
    var i, j :| 0 <= i < j < |scsi| && Key(scsi[i]) == Key(scsi[j]);
    assert qs[n + i] == scsi[i] && qs[n + j] == scsi[j];
    assert "scsi"[0] == 's' && "virtio"[0] == 'v';
    assert !ToldApart(ds, qs, pvcMap, fetched, n + i, n + j);
    LabelledDistinctIff(ds, qs, pvcMap, fetched);
  }

  // ---- Everything Collect emits ----

  /** What is asked of one VM: no two of its disks with histograms, and no two of its virtio-blk devices, have one
      alias, and at most one virtio-scsi controller is named. */
  ghost predicate WellNamed(a: Answers) {
    && a.blockStats.Some? && AllDistinct(Disks(HistDevices(a.blockStats.value)))
    && (a.virtio.Some? ==> forall x, y :: 0 <= x < y < |a.virtio.value.devices| ==>
          NamedApart(a.virtio.value.devices[x], a.virtio.value.devices[y]))
  }

  ghost predicate NamedApart(d: VirtioDevice, e: VirtioDevice) {
    && (BlkLabel(d).Some? ==> BlkLabel(d) != BlkLabel(e))
    && !(ScsiLabel(d).Some? && ScsiLabel(e).Some?)
  }

  ghost predicate UniqueDisks(ds: seq<DeviceResult>) {
    forall a, b :: 0 <= a < b < |ds| ==> ds[a].disk != ds[b].disk
  }

  /** Such a VM's scrape has distinct disks and distinct queue labels, whatever its caches hold. */
  lemma WellNamedResult(pvcMap: map<string, string>, cache: map<string, int>, a: Answers)
    requires WellNamed(a)
    ensures UniqueDisks(Result(pvcMap, cache, a).devices) && UniqueQueues(Result(pvcMap, cache, a).virtqueues)
  {
    var r, ds := Result(pvcMap, cache, a), HistDevices(a.blockStats.value);
    forall i, j | 0 <= i < j < |r.devices| ensures r.devices[i].disk != r.devices[j].disk {
      assert Disks(ds)[i] != Disks(ds)[j];
    }
    WellNamedQueues(cache, a);
    QueueLabelsDistinctIff(pvcMap, cache, a);
    assert AllToldApart(ds, ScrapedQueues(cache, a), pvcMap, a.fetched);
  }

  lemma WellNamedQueues(cache: map<string, int>, a: Answers)
    requires WellNamed(a)
    ensures Distinct(ScrapedQueues(cache, a))
  {
    if a.virtio.Some? {
      var v := a.virtio.value;
      VirtqueueLabelsDistinctIff(cache, v);
      assert NoClash(cache, v, false, |v.devices|) && NoClash(cache, v, true, |v.devices|);
    }
  }

  /** Two emissions have the same labels only if they are the same one. */
  ghost predicate DistinctSeries(vms: seq<Vmi>) {
    && (forall i: nat, a: nat, op, j: nat, b: nat, op' ::
          SameLatency(vms, i, a, op, j, b, op') ==> i == j && a == b && op == op')
    && (forall i: nat, a: nat, j: nat, b: nat :: SameQueue(vms, i, a, j, b) ==> i == j && a == b)
  }

  predicate SameLatency(vms: seq<Vmi>, i: nat, a: nat, op: string, j: nat, b: nat, op': string) {
    && i < |vms| && a < |vms[i].result.devices| && j < |vms| && b < |vms[j].result.devices|
    && Latency(vms[i], vms[i].result.devices[a], op) == Latency(vms[j], vms[j].result.devices[b], op')
  }

  predicate SameQueue(vms: seq<Vmi>, i: nat, a: nat, j: nat, b: nat) {
    && i < |vms| && a < |vms[i].result.virtqueues| && j < |vms| && b < |vms[j].result.virtqueues|
    && Queue(vms[i], vms[i].result.virtqueues[a]) == Queue(vms[j], vms[j].result.virtqueues[b])
  }

  ghost predicate DistinctPods(vms: seq<Vmi>) {
    forall i, j :: 0 <= i < j < |vms| ==> vms[i].pod != vms[j].pod
  }

  lemma SeriesOfDistinctPods(vms: seq<Vmi>)
    requires DistinctPods(vms)
    requires forall i :: 0 <= i < |vms| ==> UniqueDisks(vms[i].result.devices) && UniqueQueues(vms[i].result.virtqueues)
    ensures DistinctSeries(vms)
  {
    forall i: nat, a: nat, op, j: nat, b: nat, op' | SameLatency(vms, i, a, op, j, b, op')
      ensures i == j && a == b && op == op'
    {
      assert vms[i].pod == vms[j].pod;
      assert UniqueDisks(vms[i].result.devices);
    }
    forall i: nat, a: nat, j: nat, b: nat | SameQueue(vms, i, a, j, b)
      ensures i == j && a == b
    {
      assert vms[i].pod == vms[j].pod;
      var m, n := vms[i].result.virtqueues[a].vq.queue, vms[j].result.virtqueues[b].vq.queue;
      DecimalInjective(m, n, Decimal(m), m + n + 1);
      var qs := vms[i].result.virtqueues;
      assert i == j && a < b ==> DifferAt(qs, a, b);
      assert i == j && b < a ==> DifferAt(qs, b, a);
    }
  }

  // ---- Over any run of polls ----

  /** Container IDs identify pods: every target of the run carries the pod its ID stands for, */
  ghost predicate Identify(podOf: map<ContainerId, Pod>, targets: seq<Target>) {
    forall t :: t in targets ==> t.id in podOf && podOf[t.id] == t.pod
  }

  /** and no pod has two containers in one poll, which looks up one container for each pod of the store. */
  ghost predicate OneContainerEach(targets: seq<Target>) {
    forall t, u :: t in targets && u in targets && t.pod == u.pod ==> t.id == u.id
  }

  /** Every scrape of the poll that succeeded was of a well-named VM, with whatever caches. */
  ghost predicate ScrapesWellNamed(scraped: map<ContainerId, VmiResult>) {
    forall id :: id in scraped ==> IsScrape(scraped[id])
  }

  ghost predicate IsScrape(r: VmiResult) {
    exists pvcMap, cache, a :: WellNamed(a) && r == Result(pvcMap, cache, a)
  }

  /** The connections' pods are those of their container IDs. */
  ghost predicate Identified(podOf: map<ContainerId, Pod>, connections: map<ContainerId, nat>, pods: seq<Pod>) {
    forall id :: id in connections ==> connections[id] < |pods| && id in podOf && podOf[id] == pods[connections[id]]
  }

  lemma StillIdentified(podOf: map<ContainerId, Pod>, before: map<ContainerId, nat>, podsBefore: seq<Pod>,
                        after: map<ContainerId, nat>, pods: seq<Pod>, targets: seq<Target>)
    requires Identified(podOf, before, podsBefore) && podsBefore <= pods
    requires Identify(podOf, targets) && PodsKnown(before, after, pods, targets)
    ensures Identified(podOf, after, pods)
  {
    forall id | id in after ensures id in podOf && podOf[id] == pods[after[id]] {
      assert PodKnown(before, id, after[id], pods[after[id]], targets);
    }
  }

  /** The results of a poll are of different pods: their containers are different active ones. */
  lemma ResultsOfDistinctPods(podOf: map<ContainerId, Pod>, connections: map<ContainerId, nat>, pods: seq<Pod>,
                              input: PollInput,
                              ids: seq<ContainerId>, results: seq<Vmi>, node: string)
    requires Identified(podOf, connections, pods) && Identify(podOf, input.targets) && OneContainerEach(input.targets)
    requires Lists(ids, connections.Keys) && connections.Keys <= ActiveIds(input.targets)
    requires Published(results, ids, connections, pods, node, input.scraped)
    ensures DistinctPods(results)
  {
    forall i, j | 0 <= i < j < |results| ensures results[i].pod != results[j].pod {
      ListsDistinct(ids, connections.Keys, i, j);
      assert ids[i] in ActiveIds(input.targets) && ids[j] in ActiveIds(input.targets);
      var t :| t in input.targets && t.id == ids[i];
      var u :| u in input.targets && u.id == ids[j];
      assert t.pod == results[i].pod && u.pod == results[j].pod;
    }
  }

  lemma ResultsWellNamed(connections: map<ContainerId, nat>, pods: seq<Pod>, scraped: map<ContainerId, VmiResult>,
                         ids: seq<ContainerId>, results: seq<Vmi>, node: string)
    requires Published(results, ids, connections, pods, node, scraped) && ScrapesWellNamed(scraped)
    ensures forall i :: 0 <= i < |results| ==>
      UniqueDisks(results[i].result.devices) && UniqueQueues(results[i].result.virtqueues)
  {
    forall i | 0 <= i < |results|
      ensures UniqueDisks(results[i].result.devices) && UniqueQueues(results[i].result.virtqueues)
    {
      assert IsScrape(scraped[ids[i]]);
      var pvcMap, cache, a :| WellNamed(a) && results[i].result == Result(pvcMap, cache, a);
      WellNamedResult(pvcMap, cache, a);
    }
  }

  /** Every target of the run carries the pod its ID stands for. */
  ghost predicate AllIdentify(podOf: map<ContainerId, Pod>, inputs: seq<PollInput>) {
    forall i :: 0 <= i < |inputs| ==> Identify(podOf, inputs[i].targets)
  }

  /** What is asked of the last poll. */
  ghost predicate WellPosed(input: PollInput) {
    OneContainerEach(input.targets) && ScrapesWellNamed(input.scraped)
  }

  /** One poll keeps the connections' pods those of their container IDs. */
  method PollOnce(c: Collector, input: PollInput, ghost podOf: map<ContainerId, Pod>)
    requires c.Valid()
    modifies c
    ensures c.Valid() && LastPoll(c, input)
    ensures old(Identified(podOf, c.connections, c.pods)) && Identify(podOf, input.targets) ==>
      Identified(podOf, c.connections, c.pods)
  {
    ghost var before, pods := c.connections, c.pods;
    c.Poll(input);
    if Identified(podOf, before, pods) && Identify(podOf, input.targets) {
      StillIdentified(podOf, before, pods, c.connections, c.pods, input.targets);
    }
  }

  /** After any run of polls, whatever was dialed, departed or failed, Collect emits pairwise distinct labels,
      provided container IDs identify pods, a pod has one container at a time, and the VMs of the last poll are
      well named. */
  method CollectAfterPolls(c: Collector, inputs: seq<PollInput>, ghost podOf: map<ContainerId, Pod>)
    requires c.Valid() && c.connections == map[] && c.results == []
    modifies c
    ensures c.Valid()
    ensures AllIdentify(podOf, inputs) && (inputs != [] ==> WellPosed(inputs[|inputs| - 1])) ==>
      DistinctSeries(c.results)
    ensures AllIdentify(podOf, inputs) ==>
      AreScrapes(c.results, podOf, c.node, if inputs == [] then map[] else inputs[|inputs| - 1].scraped)
  {
    for n := 0 to |inputs|
      invariant c.Valid() && (AllIdentify(podOf, inputs) ==> Identified(podOf, c.connections, c.pods))
      invariant if n == 0 then c.results == [] else LastPoll(c, inputs[n - 1])
    {
      PollOnce(c, inputs[n], podOf);
    }
    if inputs != [] && AllIdentify(podOf, inputs) {
      PublishedAreScrapes(podOf, c.connections, c.pods, inputs[|inputs| - 1].scraped, c.resultIds, c.results, c.node);
    }
    if inputs != [] && AllIdentify(podOf, inputs) && WellPosed(inputs[|inputs| - 1]) {
      LastPollDistinct(podOf, c.connections, c.pods, inputs[|inputs| - 1], c.resultIds, c.results, c.node);
    }
  }

  /** Each result is what the scrape of some container returned, under the pod its ID stands for and this node. */
  ghost predicate AreScrapes(results: seq<Vmi>, podOf: map<ContainerId, Pod>, node: string,
                             scraped: map<ContainerId, VmiResult>)
  {
    forall i :: 0 <= i < |results| ==> results[i].node == node && IsScrapeOf(results[i], podOf, scraped)
  }

  ghost predicate IsScrapeOf(r: Vmi, podOf: map<ContainerId, Pod>, scraped: map<ContainerId, VmiResult>) {
    exists id :: id in scraped && id in podOf && r.pod == podOf[id] && r.result == scraped[id]
  }

  lemma PublishedAreScrapes(podOf: map<ContainerId, Pod>, connections: map<ContainerId, nat>, pods: seq<Pod>,
                            scraped: map<ContainerId, VmiResult>, ids: seq<ContainerId>, results: seq<Vmi>,
                            node: string)
    requires Identified(podOf, connections, pods) && Published(results, ids, connections, pods, node, scraped)
    ensures AreScrapes(results, podOf, node, scraped)
  {
    forall i | 0 <= i < |results| ensures results[i].node == node && IsScrapeOf(results[i], podOf, scraped) {
      assert ids[i] in scraped && ids[i] in podOf && results[i].pod == podOf[ids[i]];
    }
  }

  /** The results are those of a poll with this input. */
  ghost predicate LastPoll(c: Collector, input: PollInput)
    reads c
  {
    && Lists(c.resultIds, c.connections.Keys) && c.connections.Keys <= ActiveIds(input.targets)
    && Published(c.results, c.resultIds, c.connections, c.pods, c.node, input.scraped)
  }

  lemma LastPollDistinct(podOf: map<ContainerId, Pod>, connections: map<ContainerId, nat>, pods: seq<Pod>,
                         input: PollInput,
                         ids: seq<ContainerId>, results: seq<Vmi>, node: string)
    requires Identified(podOf, connections, pods) && Identify(podOf, input.targets) && OneContainerEach(input.targets)
    requires Lists(ids, connections.Keys) && connections.Keys <= ActiveIds(input.targets)
    requires Published(results, ids, connections, pods, node, input.scraped) && ScrapesWellNamed(input.scraped)
    ensures DistinctSeries(results)
  {
    ResultsOfDistinctPods(podOf, connections, pods, input, ids, results, node);
    ResultsWellNamed(connections, pods, input.scraped, ids, results, node);
    SeriesOfDistinctPods(results);
  }
}

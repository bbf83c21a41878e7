/** What a QMP scrape reports, said on QEMU's answers: which block devices and which virtqueues, in what order, with
    which names and numbers. */
module QmpResults {
  import opened Bits
  import opened QmpNames
  import opened QmpScrape
  import opened Seqs

  // ---- Names along the backing chain ----

  /** The n-th device of a backing chain. */
  function Backed(d: BlockDevice, n: nat): Option<BlockDevice> {
    if n == 0 then Some(d) else if d.backing.None? then None else Backed(d.backing.value, n - 1)
  }

  /** The n-th device of the chain is the first with a name. */
  ghost predicate FirstNamed(d: BlockDevice, n: nat) {
    && Backed(d, n).Some? && Backed(d, n).value.qdev != ""
    && forall m: nat :: m < n && Backed(d, m).Some? ==> Backed(d, m).value.qdev == ""
  }

  ghost predicate Nameless(d: BlockDevice) {
    forall n: nat :: Backed(d, n).Some? ==> Backed(d, n).value.qdev == ""
  }

  lemma NextBacked(d: BlockDevice, n: nat)
    requires d.backing.Some?
    ensures Backed(d, n + 1) == Backed(d.backing.value, n)
  {
  }

  lemma NamelessIff(d: BlockDevice)
    ensures Nameless(d) <==> d.qdev == "" && (d.backing.Some? ==> Nameless(d.backing.value))
  {
    assert Backed(d, 0) == Some(d);
    if Nameless(d) && d.backing.Some? {
      forall n: nat | Backed(d.backing.value, n).Some? ensures Backed(d.backing.value, n).value.qdev == "" {
        NextBacked(d, n);
      }
    }
    if d.qdev == "" && (d.backing.Some? ==> Nameless(d.backing.value)) {
      forall n: nat | Backed(d, n).Some? ensures Backed(d, n).value.qdev == "" {
        if n > 0 { NextBacked(d, n - 1); }
      }
    }
  }

  lemma NextFirstNamed(d: BlockDevice, n: nat)
    requires d.backing.Some? && FirstNamed(d, n + 1)
    ensures FirstNamed(d.backing.value, n)
  {
    NextBacked(d, n);
    forall m: nat | m < n && Backed(d.backing.value, m).Some? ensures Backed(d.backing.value, m).value.qdev == "" {
      NextBacked(d, m);
    }
  }

  /** The name used is the first one along the backing chain, and none exactly if the whole chain has none. */
  lemma {:induction false} FirstNameIsUsed(d: BlockDevice)
    ensures forall n: nat :: FirstNamed(d, n) ==> EffectiveQDev(d) == Backed(d, n).value.qdev
    ensures EffectiveQDev(d) == "" <==> Nameless(d)
  {
    NamelessIff(d);
    assert Backed(d, 0) == Some(d);
    if d.backing.Some? { FirstNameIsUsed(d.backing.value); }
    forall n: nat | FirstNamed(d, n) ensures EffectiveQDev(d) == Backed(d, n).value.qdev {
      if n > 0 {
        NextFirstNamed(d, n - 1);
        NextBacked(d, n - 1);
      }
    }
  }

  // ---- Block devices ----

  /** A device of the reply names this disk. */
  ghost predicate NamesDisk(d: BlockDevice, alias: string) {
    ExtractDiskInfo(EffectiveQDev(d)).Some? && ExtractDiskInfo(EffectiveQDev(d)).value.alias == alias
  }

  ghost predicate Reporting(d: BlockDevice) { d.stats.rd.hist.Some? && exists alias :: NamesDisk(d, alias) }

  lemma ReportingIff(d: BlockDevice)
    ensures Reporting(d) <==> d.HasHistograms() && ExtractDiskInfo(EffectiveQDev(d)).Some?
  {
    if ExtractDiskInfo(EffectiveQDev(d)).Some? {
      assert NamesDisk(d, ExtractDiskInfo(EffectiveQDev(d)).value.alias);
    }
  }

  /** The positions of the devices among the first n that name a disk and report histograms. */
  ghost function ReportingIn(devs: seq<BlockDevice>, n: nat): nat -> bool {
    (p: nat) => p < n && p < |devs| && Reporting(devs[p])
  }

  ghost function HistIn(devs: seq<BlockDevice>): (nat, HistDevice) -> bool {
    (p: nat, h: HistDevice) => p < |devs| && NamesDisk(devs[p], h.disk) && devs[p].stats == h.stats
  }

  ghost function OnlyIn(devs: seq<BlockDevice>, n: nat): nat -> bool {
    (p: nat) => p == n && p < |devs| && Reporting(devs[p])
  }

  /** What the n-th device adds. */
  function OneHist(d: BlockDevice): seq<HistDevice> {
    match ExtractDiskInfo(EffectiveQDev(d))
    case None => []
    case Some(info) => if d.HasHistograms() then [HistDevice(info.alias, d.stats)] else []
  }

  lemma OneHistAt(devs: seq<BlockDevice>, n: nat) returns (at: seq<nat>)
    requires n < |devs|
    ensures Picks(Less(), OnlyIn(devs, n), HistIn(devs), at, OneHist(devs[n]))
  {
    ReportingIff(devs[n]);
    if Reporting(devs[n]) {
      at := [n];
      PicksOne(Less(), OnlyIn(devs, n), HistIn(devs), n, OneHist(devs[n])[0]);
    } else {
      at := [];
      PicksNone(Less(), OnlyIn(devs, n), HistIn(devs));
    }
  }

  lemma HistSnoc(devs: seq<BlockDevice>, n: nat)
    requires n < |devs|
    ensures HistDevices(devs[..n + 1]) == HistDevices(devs[..n]) + OneHist(devs[n])
  {
    assert devs[..n + 1][..n] == devs[..n];
    assert HistDevices(devs[..n]) + [] == HistDevices(devs[..n]);
  }

  lemma {:induction false} HistDevicesAt(devs: seq<BlockDevice>, n: nat) returns (at: seq<nat>)
    requires n <= |devs|
    ensures Picks(Less(), ReportingIn(devs, n), HistIn(devs), at, HistDevices(devs[..n]))
  {
    if n == 0 {
      at := [];
      PicksNone(Less(), ReportingIn(devs, n), HistIn(devs));
    } else {
      var init := HistDevicesAt(devs, n - 1);
      var more := OneHistAt(devs, n - 1);
      HistSnoc(devs, n - 1);
      PicksConcat(Less(), ReportingIn(devs, n - 1), OnlyIn(devs, n - 1), ReportingIn(devs, n), HistIn(devs),
                  init, HistDevices(devs[..n - 1]), more, OneHist(devs[n - 1]));
      at := init + more;
    }
  }

  /** A scrape's result has one device for each block device of the reply that names a disk and reports histograms, in
      the order of the reply, with that disk and those statistics. */
  lemma ResultDevices(pvcMap: map<string, string>, cache: map<string, int>, a: Answers) returns (at: seq<nat>)
    requires a.blockStats.Some?
    ensures var devs, ds := a.blockStats.value, Result(pvcMap, cache, a).devices;
      && |at| == |ds| && (forall i, j :: 0 <= i < j < |at| ==> at[i] < at[j])
      && (forall p: nat :: p in at <==> p < |devs| && Reporting(devs[p]))
      && forall j :: 0 <= j < |at| ==>
           at[j] < |devs| && NamesDisk(devs[at[j]], ds[j].disk) && ds[j].stats == devs[at[j]].stats
  {
    var devs := a.blockStats.value;
    at := HistDevicesAt(devs, |devs|);
    assert devs[..|devs|] == devs;
    forall p: nat ensures p in at <==> p < |devs| && Reporting(devs[p]) {
      assert p in at <==> ReportingIn(devs, |devs|)(p);
    }
    forall j | 0 <= j < |at| ensures HistIn(devs)(at[j], HistDevices(devs)[j]) { }
    forall i, j | 0 <= i < j < |at| ensures at[i] < at[j] { assert Less()(at[i], at[j]); }
  }

  // ---- Arming ----

  ghost function NamingIn(devs: seq<BlockDevice>, n: nat): nat -> bool {
    (p: nat) => p < n && p < |devs| && exists alias :: NamesDisk(devs[p], alias)
  }

  ghost function OnlyNaming(devs: seq<BlockDevice>, n: nat): nat -> bool {
    (p: nat) => p == n && p < |devs| && exists alias :: NamesDisk(devs[p], alias)
  }

  ghost function TryIn(devs: seq<BlockDevice>, armOk: seq<bool>): (nat, ArmTry) -> bool {
    (p: nat, t: ArmTry) => p < |devs| && p < |armOk| && IsTry(devs[p], armOk[p], t)
  }

  /** The try of a device: under its device ID, with whether it reports histograms. */
  ghost predicate IsTry(d: BlockDevice, ok: bool, t: ArmTry) {
    && ExtractDiskInfo(EffectiveQDev(d)).Some? && t.deviceId == ExtractDiskInfo(EffectiveQDev(d)).value.deviceId
    && t.hasHistograms == d.stats.rd.hist.Some? && t.ok == ok
  }

  lemma OneTryAt(devs: seq<BlockDevice>, armOk: seq<bool>, n: nat) returns (at: seq<nat>)
    requires n < |devs| == |armOk|
    ensures Picks(Less(), OnlyNaming(devs, n), TryIn(devs, armOk), at, OneTry(devs[n], armOk[n]))
  {
    if ExtractDiskInfo(EffectiveQDev(devs[n])).Some? {
      assert NamesDisk(devs[n], ExtractDiskInfo(EffectiveQDev(devs[n])).value.alias);
      at := [n];
      PicksOne(Less(), OnlyNaming(devs, n), TryIn(devs, armOk), n, OneTry(devs[n], armOk[n])[0]);
    } else {
      at := [];
      PicksNone(Less(), OnlyNaming(devs, n), TryIn(devs, armOk));
    }
  }

  lemma {:induction false} TriesAt(devs: seq<BlockDevice>, armOk: seq<bool>, n: nat) returns (at: seq<nat>)
    requires n <= |devs| == |armOk|
    ensures Picks(Less(), NamingIn(devs, n), TryIn(devs, armOk), at, ArmTries(devs[..n], armOk[..n]))
  {
    if n == 0 {
      at := [];
      PicksNone(Less(), NamingIn(devs, n), TryIn(devs, armOk));
    } else {
      var init := TriesAt(devs, armOk, n - 1);
      var more := OneTryAt(devs, armOk, n - 1);
      TriesSnoc(devs, armOk, n - 1);
      PicksConcat(Less(), NamingIn(devs, n - 1), OnlyNaming(devs, n - 1), NamingIn(devs, n), TryIn(devs, armOk),
                  init, ArmTries(devs[..n - 1], armOk[..n - 1]), more, OneTry(devs[n - 1], armOk[n - 1]));
      at := init + more;
    }
  }

  /** The arming loop tries each device of the reply that names a disk once, in order, under its device ID. */
  lemma ReplyIsTried(devs: seq<BlockDevice>, armOk: seq<bool>) returns (at: seq<nat>)
    requires |devs| == |armOk|
    ensures var tries := ArmTries(devs, armOk);
      && |at| == |tries| && (forall i, j :: 0 <= i < j < |at| ==> at[i] < at[j])
      && (forall p: nat :: p in at <==> p < |devs| && exists alias :: NamesDisk(devs[p], alias))
      && forall j :: 0 <= j < |at| ==> at[j] < |devs| && IsTry(devs[at[j]], armOk[at[j]], tries[j])
  {
    at := TriesAt(devs, armOk, |devs|);
    var tries := ArmTries(devs, armOk);
    assert devs[..|devs|] == devs && armOk[..|devs|] == armOk;
    forall p: nat ensures p in at <==> p < |devs| && exists alias :: NamesDisk(devs[p], alias) {
      assert p in at <==> NamingIn(devs, |devs|)(p);
    }
    forall j | 0 <= j < |at| ensures at[j] < |devs| && IsTry(devs[at[j]], armOk[at[j]], tries[j]) {
      assert TryIn(devs, armOk)(at[j], tries[j]);
    }
    forall i, j | 0 <= i < j < |at| ensures at[i] < at[j] { assert Less()(at[i], at[j]); }
  }

  // ---- Virtqueues ----

  /** A queue of a device: the device's position and the queue's index. */
  type Place = (nat, nat)

  ghost predicate Before(a: Place, b: Place) { a.0 < b.0 || (a.0 == b.0 && a.1 < b.1) }

  ghost function InOrder(): (Place, Place) -> bool { (a, b) => Before(a, b) }

  /** The disk label under which a bus reports a device: the disk a virtio-blk device's path names, or none for a
      virtio-scsi controller below a named peripheral. */
  ghost predicate ReportedAs(d: VirtioDevice, scsi: bool, disk: string) {
    if scsi then "virtio-scsi" <= d.name && HasControllerName(d.path) && disk == ""
    else "virtio-blk" <= d.name && ExtractDiskInfo(d.path).Some? && ExtractDiskInfo(d.path).value.alias == disk
  }

  /** Queue q of the device answers: it is below the count cached for the path or, if none is, the count asked for. */
  ghost predicate Answering(cache: map<string, int>, v: Virtio, d: VirtioDevice, q: nat) {
    && (d.path, q) in v.queues
    && if d.path in cache then q < cache[d.path] else d.path in v.counts && q < v.counts[d.path]
  }

  /** The queue at this place is reported on this bus. */
  ghost predicate Reports(cache: map<string, int>, v: Virtio, scsi: bool, at: Place) {
    && at.0 < |v.devices| && (exists disk :: ReportedAs(v.devices[at.0], scsi, disk))
    && Answering(cache, v, v.devices[at.0], at.1)
  }

  ghost predicate IsQueue(v: Virtio, scsi: bool, at: Place, vq: Virtqueue) {
    && at.0 < |v.devices| && ReportedAs(v.devices[at.0], scsi, vq.disk) && vq.queue == at.1
    && vq.bus == (if scsi then "scsi" else "virtio")
    && (v.devices[at.0].path, at.1) in v.queues && vq.status == v.queues[(v.devices[at.0].path, at.1)]
  }

  /** The places of the first k devices, and those of device p below queue n. */
  ghost function ReportsUpTo(cache: map<string, int>, v: Virtio, scsi: bool, k: nat): Place -> bool {
    (at: Place) => at.0 < k && Reports(cache, v, scsi, at)
  }

  ghost function QueuesUpTo(v: Virtio, p: nat, n: nat): Place -> bool {
    (at: Place) => at.0 == p < |v.devices| && at.1 < n && (v.devices[p].path, at.1) in v.queues
  }

  ghost function ReportsAt(cache: map<string, int>, v: Virtio, scsi: bool, p: nat): Place -> bool {
    (at: Place) => at.0 == p && Reports(cache, v, scsi, at)
  }

  ghost function IsQueueOf(v: Virtio, scsi: bool): (Place, Virtqueue) -> bool {
    (at: Place, vq: Virtqueue) => IsQueue(v, scsi, at, vq)
  }

  lemma LabelIff(d: VirtioDevice, scsi: bool, disk: string)
    ensures Label(d, scsi) == Some(disk) <==> ReportedAs(d, scsi, disk)
  {
  }

  lemma OneQueueAt(v: Virtio, scsi: bool, p: nat, disk: string, n: nat) returns (at: seq<Place>)
    requires p < |v.devices| && ReportedAs(v.devices[p], scsi, disk)
    ensures var path := v.devices[p].path;
      var only: Place -> bool := (at: Place) => at == (p, n) && (path, n) in v.queues;
      Picks(InOrder(), only, IsQueueOf(v, scsi), at,
            if (path, n) in v.queues then [Virtqueue(disk, Bus(scsi), n, v.queues[(path, n)])] else [])
  {
    var path := v.devices[p].path;
    var only: Place -> bool := (at: Place) => at == (p, n) && (path, n) in v.queues;
    if (path, n) in v.queues {
      at := [(p, n)];
      PicksOne(InOrder(), only, IsQueueOf(v, scsi), (p, n), Virtqueue(disk, Bus(scsi), n, v.queues[(path, n)]));
    } else {
      at := [];
      PicksNone(InOrder(), only, IsQueueOf(v, scsi));
    }
  }

  lemma {:induction false} QueuesAt(v: Virtio, scsi: bool, p: nat, disk: string, n: nat) returns (at: seq<Place>)
    requires p < |v.devices| && ReportedAs(v.devices[p], scsi, disk)
    ensures Picks(InOrder(), QueuesUpTo(v, p, n), IsQueueOf(v, scsi), at,
                  QueuesOf(v, v.devices[p].path, disk, Bus(scsi), n))
  {
    if n == 0 {
      at := [];
      PicksNone(InOrder(), QueuesUpTo(v, p, n), IsQueueOf(v, scsi));
    } else {
      var path := v.devices[p].path;
      var init := QueuesAt(v, scsi, p, disk, n - 1);
      var more := OneQueueAt(v, scsi, p, disk, n - 1);
      var only: Place -> bool := (at: Place) => at == (p, n - 1) && (path, n - 1) in v.queues;
      PicksConcat(
        InOrder(), QueuesUpTo(v, p, n - 1), only, QueuesUpTo(v, p, n), IsQueueOf(v, scsi),
        init, QueuesOf(v, path, disk, Bus(scsi), n - 1), more,
        if (path, n - 1) in v.queues then [Virtqueue(disk, Bus(scsi), n - 1, v.queues[(path, n - 1)])] else []);
      at := init + more;
    }
  }

  /** The queues one device adds. */
  lemma DeviceQueuesAt(cache: map<string, int>, v: Virtio, scsi: bool, p: nat) returns (at: seq<Place>)
    requires p < |v.devices|
    ensures Picks(InOrder(), ReportsAt(cache, v, scsi, p), IsQueueOf(v, scsi), at,
                  DeviceQueues(cache, v, v.devices[p], Label(v.devices[p], scsi), Bus(scsi)))
  {
    var d := v.devices[p];
    var disk, n := Label(d, scsi), CountFor(cache, v, d.path);
    if disk.Some? { LabelIff(d, scsi, disk.value); }
    forall l ensures ReportedAs(d, scsi, l) ==> disk == Some(l) { LabelIff(d, scsi, l); }
    if disk.Some? && n.Some? && n.value > 0 {
      at := QueuesAt(v, scsi, p, disk.value, n.value);
      forall k: Place ensures ReportsAt(cache, v, scsi, p)(k) <==> QueuesUpTo(v, p, n.value)(k) { }
    } else {
      at := [];
      PicksNone(InOrder(), ReportsAt(cache, v, scsi, p), IsQueueOf(v, scsi));
    }
  }

  /** The queues of a bus, device by device and in order of their indices. */
  lemma {:induction false} BusQueuesAt(cache: map<string, int>, v: Virtio, scsi: bool, k: nat) returns (at: seq<Place>)
    requires k <= |v.devices|
    ensures Picks(InOrder(), ReportsUpTo(cache, v, scsi, k), IsQueueOf(v, scsi), at, BusQueues(cache, v, scsi, k))
  {
    if k == 0 {
      at := [];
      PicksNone(InOrder(), ReportsUpTo(cache, v, scsi, k), IsQueueOf(v, scsi));
    } else {
      var d := v.devices[k - 1];
      var init := BusQueuesAt(cache, v, scsi, k - 1);
      var more := DeviceQueuesAt(cache, v, scsi, k - 1);
      PicksConcat(
        InOrder(), ReportsUpTo(cache, v, scsi, k - 1), ReportsAt(cache, v, scsi, k - 1), ReportsUpTo(cache, v, scsi, k),
        IsQueueOf(v, scsi), init, BusQueues(cache, v, scsi, k - 1), more,
        DeviceQueues(cache, v, d, Label(d, scsi), Bus(scsi)));
      at := init + more;
    }
  }

  /** The virtqueues reported on a bus: one for each queue that answers of the devices the bus reports, in the order of
      the devices and their queues, with its disk, bus, index and status. */
  ghost predicate BusReport(cache: map<string, int>, v: Virtio, scsi: bool, at: seq<Place>, qs: seq<Virtqueue>) {
    && |at| == |qs| && (forall i, j :: 0 <= i < j < |at| ==> Before(at[i], at[j]))
    && (forall k: Place :: k in at <==> Reports(cache, v, scsi, k))
    && forall j :: 0 <= j < |at| ==> IsQueue(v, scsi, at[j], qs[j])
  }

  lemma BusIsReported(cache: map<string, int>, v: Virtio, scsi: bool) returns (at: seq<Place>)
    ensures BusReport(cache, v, scsi, at, BusQueues(cache, v, scsi, |v.devices|))
  {
    at := BusQueuesAt(cache, v, scsi, |v.devices|);
    var qs := BusQueues(cache, v, scsi, |v.devices|);
    forall i, j | 0 <= i < j < |at| ensures Before(at[i], at[j]) { assert InOrder()(at[i], at[j]); }
    forall k: Place ensures k in at <==> Reports(cache, v, scsi, k) {
      assert k in at <==> ReportsUpTo(cache, v, scsi, |v.devices|)(k);
    }
    forall j | 0 <= j < |at| ensures IsQueue(v, scsi, at[j], qs[j]) { assert IsQueueOf(v, scsi)(at[j], qs[j]); }
  }

  function Queues(rs: seq<VirtqueueResult>): seq<Virtqueue> { seq(|rs|, i requires 0 <= i < |rs| => rs[i].vq) }

  /** A scrape's result has the virtqueues of the virtio-blk devices, then those of the virtio-scsi controllers. */
  lemma ResultQueues(pvcMap: map<string, string>, cache: map<string, int>, a: Answers)
    returns (blk: seq<Place>, scsi: seq<Place>)
    requires a.blockStats.Some? && a.virtio.Some?
    ensures var v, qs := a.virtio.value, Queues(Result(pvcMap, cache, a).virtqueues);
      && |qs| == |blk| + |scsi|
      && BusReport(cache, v, false, blk, qs[..|blk|]) && BusReport(cache, v, true, scsi, qs[|blk|..])
  {
    var v, qs := a.virtio.value, Queues(Result(pvcMap, cache, a).virtqueues);
    blk := BusIsReported(cache, v, false);
    scsi := BusIsReported(cache, v, true);
    assert qs == AllQueues(cache, v);
    assert qs[..|blk|] == BusQueues(cache, v, false, |v.devices|);
    assert qs[|blk|..] == BusQueues(cache, v, true, |v.devices|);
  }
}

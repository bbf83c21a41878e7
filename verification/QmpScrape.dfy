/** scrapeVM of pkg/qmp/collector.go: the caches a connection keeps between scrapes. Each cache is run
    over any sequence of uses and compared with what would be seen without it. */
module QmpScrape {
  import opened Bits
  import opened QmpNames

  /** The fields of QEMU's block statistics that are used, for each kind of operation. */
  datatype LatencyHist = LatencyHist(boundaries: seq<real>, bins: seq<u64>)
  datatype OpStats = OpStats(hist: Option<LatencyHist>, totalNs: u64)
  datatype BlockStats = BlockStats(rd: OpStats, wr: OpStats, flush: OpStats)

  datatype BlockDevice = BlockDevice(qdev: string, stats: BlockStats, backing: Option<BlockDevice>) {
    predicate HasHistograms() { stats.rd.hist.Some? }
  }

  function EffectiveQDev(d: BlockDevice): string {
    if d.qdev != "" then d.qdev else if d.backing.Some? then EffectiveQDev(d.backing.value) else ""
  }

  // ---- Arming latency histograms ----

  /** One device of a block-stats reply that names a disk, and whether enabling its histogram would succeed. */
  datatype ArmTry = ArmTry(deviceId: string, hasHistograms: bool, ok: bool)

  /** The try a device of the reply makes, if it names a disk; `ok` says whether enabling would succeed. */
  function OneTry(d: BlockDevice, ok: bool): seq<ArmTry> {
    match ExtractDiskInfo(EffectiveQDev(d))
    case None => []
    case Some(info) => [ArmTry(info.deviceId, d.HasHistograms(), ok)]
  }

  /** The tries of a reply, in order; `armOk[i]` answers for device i. */
  function ArmTries(devs: seq<BlockDevice>, armOk: seq<bool>): seq<ArmTry>
    requires |armOk| == |devs|
  {
    if devs == [] then []
    else ArmTries(devs[..|devs| - 1], armOk[..|devs| - 1]) + OneTry(devs[|devs| - 1], armOk[|devs| - 1])
  }

  /** After these tries the device counts as armed: it reported histograms, or enabling them worked. */
  ghost predicate ArmedBy(tries: seq<ArmTry>, id: string) {
    exists j :: 0 <= j < |tries| && tries[j].deviceId == id && (tries[j].hasHistograms || tries[j].ok)
  }

  /** Try i of a connection's life sends the enable command. */
  ghost predicate Sends(tries: seq<ArmTry>, i: nat) {
    i < |tries| && !tries[i].hasHistograms && !ArmedBy(tries[..i], tries[i].deviceId)
  }

  /** Over any run of scrapes on one connection the enable command succeeds at most once per device,
      and after it has succeeded, or the device has reported histograms, it is not sent again. */
  lemma ArmedAtMostOnce(tries: seq<ArmTry>, i: nat, j: nat)
    requires i < j && Sends(tries, i) && Sends(tries, j) && tries[i].deviceId == tries[j].deviceId
    ensures !tries[i].ok
    ensures forall k :: 0 <= k < j && tries[k].deviceId == tries[j].deviceId ==> !tries[k].hasHistograms
  {
    assert forall k :: 0 <= k < j ==> tries[..j][k] == tries[k];
  }

  lemma ArmedBySnoc(tries: seq<ArmTry>, t: ArmTry, id: string)
    ensures ArmedBy(tries + [t], id) <==> ArmedBy(tries, id) || (t.deviceId == id && (t.hasHistograms || t.ok))
  {
    var all := tries + [t];
    if ArmedBy(tries, id) {
      var j :| 0 <= j < |tries| && tries[j].deviceId == id && (tries[j].hasHistograms || tries[j].ok);
      assert all[j] == tries[j];
    }
    if t.deviceId == id && (t.hasHistograms || t.ok) { assert all[|tries|] == t; }
  }

  /** The devices that count as armed after these tries. */
  ghost predicate ArmedAs(armed: set<string>, tries: seq<ArmTry>) { forall id :: id in armed <==> ArmedBy(tries, id) }

  /** The tries from the n-th on that send the command. */
  ghost predicate SentAs(sent: set<nat>, n: nat, tries: seq<ArmTry>) {
    forall i: nat :: i in sent <==> n <= i && Sends(tries, i)
  }

  // ---- PVC labels ----

  function PvcOf(m: map<string, string>, k: string): string { if k in m then m[k] else "" }

  /** Number of lookups answered from the cache before the first one that finds it blank. */
  function FirstBlank(pvcMap: map<string, string>, aliases: seq<string>): (n: nat)
    ensures n <= |aliases|
    ensures n < |aliases| ==> PvcOf(pvcMap, aliases[n]) == ""
    ensures forall i :: 0 <= i < n ==> PvcOf(pvcMap, aliases[i]) != ""
  {
    if aliases == [] || PvcOf(pvcMap, aliases[0]) == "" then 0 else 1 + FirstBlank(pvcMap, aliases[1..])
  }

  /** The labels of a scrape that looks up these aliases in this order, and fetches `fetched` if it must:
      the cache until it first comes up blank, the fetched map from there on. */
  function Labels(pvcMap: map<string, string>, fetched: map<string, string>, aliases: seq<string>): (ls: seq<string>)
    ensures |ls| == |aliases|
  {
    var n := FirstBlank(pvcMap, aliases);
    seq(|aliases|, i requires 0 <= i < |aliases| => PvcOf(if i < n then pvcMap else fetched, aliases[i]))
  }

  /** The cache after a scrape. */
  function AfterLookups(pvcMap: map<string, string>, fetched: map<string, string>, aliases: seq<string>)
    : map<string, string>
  {
    if FirstBlank(pvcMap, aliases) < |aliases| then fetched else pvcMap
  }

  /** One scrape: the aliases it looks up, the claims of the moment, and whether a fetch would succeed. A failed
      fetch yields an empty map. */
  datatype Scrape = Scrape(aliases: seq<string>, truth: map<string, string>, fetchOk: bool) {
    function Fetched(): map<string, string> { if fetchOk then truth else map[] }
    function LabelsFrom(pvcMap: map<string, string>): seq<string> { Labels(pvcMap, Fetched(), aliases) }
    ghost predicate AllTrueFrom(pvcMap: map<string, string>) {
      forall i :: 0 <= i < |aliases| ==> LabelsFrom(pvcMap)[i] == PvcOf(truth, aliases[i])
    }
    /** Some alias from the first blank on has a claim. */
    ghost predicate NeedsFetch(pvcMap: map<string, string>) {
      exists i :: FirstBlank(pvcMap, aliases) <= i < |aliases| && PvcOf(truth, aliases[i]) != ""
    }
  }

  /** The labels a scrape takes from the cache are true. */
  ghost predicate UsedLabelsTrue(pvcMap: map<string, string>, s: Scrape) {
    forall i :: 0 <= i < FirstBlank(pvcMap, s.aliases) ==> PvcOf(pvcMap, s.aliases[i]) == PvcOf(s.truth, s.aliases[i])
  }

  /** A scrape labels everything truly if and only if the cached labels it uses are true, and its fetch
      succeeds or nothing from the first blank on has a claim (in particular if it makes no fetch). */
  lemma LabelsTrueIff(pvcMap: map<string, string>, s: Scrape)
    ensures s.AllTrueFrom(pvcMap) <==> UsedLabelsTrue(pvcMap, s) && (s.fetchOk || !s.NeedsFetch(pvcMap))
  {
    var n, ls := FirstBlank(pvcMap, s.aliases), s.LabelsFrom(pvcMap);
    assert forall i :: 0 <= i < n ==> ls[i] == PvcOf(pvcMap, s.aliases[i]);
    assert forall i :: n <= i < |s.aliases| ==> ls[i] == PvcOf(s.Fetched(), s.aliases[i]);
  }

  /** Cached labels are true where they are not blank. */
  ghost predicate StillTrue(pvcMap: map<string, string>, truth: map<string, string>) {
    forall k :: PvcOf(pvcMap, k) != "" ==> PvcOf(pvcMap, k) == PvcOf(truth, k)
  }

  /** The cache before scrape i of a run. */
  function CacheAt(pvcMap: map<string, string>, scrapes: seq<Scrape>, i: nat): map<string, string>
    requires i <= |scrapes|
  {
    if i == 0 then pvcMap
    else AfterLookups(CacheAt(pvcMap, scrapes, i - 1), scrapes[i - 1].Fetched(), scrapes[i - 1].aliases)
  }

  lemma {:induction false} CachesStayTrue(pvcMap: map<string, string>, truth: map<string, string>,
                                          scrapes: seq<Scrape>, i: nat)
    requires i <= |scrapes| && StillTrue(pvcMap, truth)
    requires forall k :: 0 <= k < |scrapes| ==> scrapes[k].truth == truth
    ensures StillTrue(CacheAt(pvcMap, scrapes, i), truth)
  {
    if i > 0 { CachesStayTrue(pvcMap, truth, scrapes, i - 1); }
  }

  /** Over any run of scrapes with unchanged claims, in any lookup order and whichever fetches fail, a scrape's
      labels are all true if and only if its own fetch succeeds or nothing it would fetch has a claim. An earlier
      failure makes later scrapes fetch again, but never mislabels one whose fetch succeeds. */
  lemma RunLabelsTrueIff(pvcMap: map<string, string>, truth: map<string, string>, scrapes: seq<Scrape>, i: nat)
    requires i < |scrapes| && StillTrue(pvcMap, truth)
    requires forall k :: 0 <= k < |scrapes| ==> scrapes[k].truth == truth
    ensures scrapes[i].AllTrueFrom(CacheAt(pvcMap, scrapes, i)) <==>
      scrapes[i].fetchOk || !scrapes[i].NeedsFetch(CacheAt(pvcMap, scrapes, i))
  {
    CachesStayTrue(pvcMap, truth, scrapes, i);
    LabelsTrueIff(CacheAt(pvcMap, scrapes, i), scrapes[i]);
  }

  /** A label a failed fetch takes away: any alias looked up from the first blank on, also one that was cached.
      The cache is then empty, and the next scrape whose fetch succeeds labels everything truly again. */
  lemma FailedFetchLosesLabels(pvcMap: map<string, string>, s: Scrape, next: Scrape, i: nat)
    requires !s.fetchOk && FirstBlank(pvcMap, s.aliases) <= i < |s.aliases|
    ensures s.LabelsFrom(pvcMap)[i] == ""
    ensures AfterLookups(pvcMap, s.Fetched(), s.aliases) == map[]
    ensures next.fetchOk ==> next.AllTrueFrom(AfterLookups(pvcMap, s.Fetched(), s.aliases))
  {
    LabelsTrueIff(map[], next);
    assert FirstBlank(map[], next.aliases) == 0;
  }

  // ---- Virtqueues ----

  datatype VirtioDevice = VirtioDevice(path: string, name: string)
  datatype QueueStatus = QueueStatus(inuse: u32, vringNum: u32)
  datatype Virtqueue = Virtqueue(disk: string, bus: string, queue: nat, status: QueueStatus)

  /** What QEMU answers during one scrape: queue counts by path, and queues by path and index; a missing
      entry is a query that fails. */
  datatype Virtio = Virtio(devices: seq<VirtioDevice>, counts: map<string, int>,
                           queues: map<(string, nat), QueueStatus>)

  /** The disk label of a device whose queues are reported, if any. */
  function BlkLabel(d: VirtioDevice): Option<string> {
    if !HasPrefix(d.name, "virtio-blk") then None
    else match ExtractDiskInfo(d.path) case None => None case Some(info) => Some(info.alias)
  }

  function ScsiLabel(d: VirtioDevice): Option<string> {
    if HasPrefix(d.name, "virtio-scsi") && HasControllerName(d.path) then Some("") else None
  }

  function Label(d: VirtioDevice, scsi: bool): Option<string> { if scsi then ScsiLabel(d) else BlkLabel(d) }

  function Bus(scsi: bool): string { if scsi then "scsi" else "virtio" }

  /** The queue count to use: cached, else asked for. */
  function CountFor(cache: map<string, int>, v: Virtio, path: string): Option<int> {
    if path in cache then Some(cache[path]) else if path in v.counts then Some(v.counts[path]) else None
  }

  function QueuesOf(v: Virtio, path: string, disk: string, bus: string, n: nat): seq<Virtqueue> {
    if n == 0 then []
    else
      QueuesOf(v, path, disk, bus, n - 1) +
      (if (path, n - 1) in v.queues then [Virtqueue(disk, bus, n - 1, v.queues[(path, n - 1)])] else [])
  }

  function DeviceQueues(cache: map<string, int>, v: Virtio, d: VirtioDevice, disk: Option<string>,
                        bus: string): seq<Virtqueue> {
    if disk.None? then [] else
    match CountFor(cache, v, d.path)
    case None => []
    case Some(n) => if n <= 0 then [] else QueuesOf(v, d.path, disk.value, bus, n)
  }

  function BusQueues(cache: map<string, int>, v: Virtio, scsi: bool, k: nat): seq<Virtqueue>
    requires k <= |v.devices|
  {
    if k == 0 then []
    else
      var d := v.devices[k - 1];
      BusQueues(cache, v, scsi, k - 1) +
      DeviceQueues(cache, v, d, Label(d, scsi), Bus(scsi))
  }

  /** All virtqueues of one scrape: the virtio-blk disks' queues, then the virtio-scsi controllers'. */
  function AllQueues(cache: map<string, int>, v: Virtio): seq<Virtqueue> {
    BusQueues(cache, v, false, |v.devices|) + BusQueues(cache, v, true, |v.devices|)
  }

  /** `later` keeps what `earlier` cached and adds only positive counts that QEMU gave. */
  ghost predicate CacheGrows(earlier: map<string, int>, later: map<string, int>, v: Virtio) {
    && (forall p :: p in earlier ==> p in later && later[p] == earlier[p])
    && (forall p :: p in later && p !in earlier ==> p in v.counts && later[p] == v.counts[p] && later[p] > 0)
  }

  lemma CacheGrowsCount(earlier: map<string, int>, later: map<string, int>, v: Virtio, path: string)
    requires CacheGrows(earlier, later, v)
    ensures CountFor(later, v, path) == CountFor(earlier, v, path)
  {
  }

  /** Counts are constant and every count query succeeds. */
  ghost predicate Steady(cache: map<string, int>, truth: map<string, int>) {
    forall p :: p in cache ==> p in truth && cache[p] == truth[p]
  }

  lemma {:induction false} CachedQueuesAreQueried(cache: map<string, int>, v: Virtio, scsi: bool, k: nat)
    requires Steady(cache, v.counts) && k <= |v.devices|
    ensures BusQueues(cache, v, scsi, k) == BusQueues(map[], v, scsi, k)
  {
    if k > 0 { CachedQueuesAreQueried(cache, v, scsi, k - 1); }
  }

  /** Caching counts refines asking every time: with steady counts a scrape lists the same virtqueues as
      one that queries every count, and its cache is fit for the next scrape. */
  lemma CacheRefinesQuerying(cache: map<string, int>, later: map<string, int>, v: Virtio)
    requires Steady(cache, v.counts) && CacheGrows(cache, later, v)
    ensures AllQueues(cache, v) == AllQueues(map[], v)
    ensures Steady(later, v.counts)
    ensures (forall p :: p in cache ==> cache[p] > 0) ==> forall p :: p in later ==> later[p] > 0
  {
    CachedQueuesAreQueried(cache, v, false, |v.devices|);
    CachedQueuesAreQueried(cache, v, true, |v.devices|);
  }

  /** The caches of one connection before each scrape of a run and after the last. */
  ghost predicate CacheRun(caches: seq<map<string, int>>, vs: seq<Virtio>) {
    && |caches| == |vs| + 1 && caches[0] == map[]
    && forall i :: 0 <= i < |vs| ==> CacheGrows(caches[i], caches[i + 1], vs[i])
  }

  /** Over any run of scrapes in which counts stay the same and count queries succeed, the connection
      lists the virtqueues it would list by asking each time, and caches only positive counts. */
  lemma {:induction false} CachedRunsRefineQuerying(caches: seq<map<string, int>>, vs: seq<Virtio>,
        truth: map<string, int>, i: nat)
    requires CacheRun(caches, vs) && i < |caches|
    requires forall k :: 0 <= k < |vs| ==> vs[k].counts == truth
    ensures Steady(caches[i], truth) && forall p :: p in caches[i] ==> caches[i][p] > 0
    ensures i < |vs| ==> AllQueues(caches[i], vs[i]) == AllQueues(map[], vs[i])
  {
    if i > 0 {
      CachedRunsRefineQuerying(caches, vs, truth, i - 1);
      CacheRefinesQuerying(caches[i - 1], caches[i], vs[i - 1]);
    }
    if i < |vs| { CacheRefinesQuerying(caches[i], caches[i + 1], vs[i]); }
  }

  // ---- The connection ----

  class VmConnection {
    var armed: set<string>
    var numQueues: map<string, int>
    var pvcMap: map<string, string>

    constructor (fetched: map<string, string>)
      ensures armed == {} && numQueues == map[] && pvcMap == fetched
    {
      armed, numQueues, pvcMap := {}, map[], fetched;
    }

    /** The body of the arming loop, after the tries `all`. */
    method ArmOne(d: BlockDevice, ok: bool, ghost all: seq<ArmTry>) returns (sends: bool)
      requires ArmedAs(armed, all)
      modifies this`armed
      ensures ArmedAs(armed, all + OneTry(d, ok))
      ensures sends <==> Sends(all + OneTry(d, ok), |all|)
    {
      sends := false;
      var info := ExtractDiskInfo(EffectiveQDev(d));
      if info.None? {
        assert all + OneTry(d, ok) == all;
        return;
      }
      var id := info.value.deviceId;
      ghost var try := ArmTry(id, d.HasHistograms(), ok);
      forall x: string ensures ArmedBy(all + [try], x) <==> ArmedBy(all, x) || (id == x && (try.hasHistograms || ok)) {
        ArmedBySnoc(all, try, x);
      }
      SendsSnoc(all, try);
      if id in armed {
        return;
      }
      if !d.HasHistograms() {
        sends := true;
        if !ok {
          return;
        }
      }
      armed := armed + {id};
    }

    /** The arming loop. `before` is what the connection has tried in earlier scrapes; `sent` lists the
        tries of this scrape, by position, for which the command goes out. */
    method ArmDevices(devs: seq<BlockDevice>, armOk: seq<bool>, ghost before: seq<ArmTry>)
      returns (ghost sent: set<nat>)
      requires |armOk| == |devs|
      requires ArmedAs(armed, before)
      modifies this`armed
      ensures ArmedAs(armed, before + ArmTries(devs, armOk))
      ensures SentAs(sent, |before|, before + ArmTries(devs, armOk))
    {
      sent := {};
      ghost var all := before;
      assert before + ArmTries(devs[..0], armOk[..0]) == before;
      for n := 0 to |devs|
        invariant all == before + ArmTries(devs[..n], armOk[..n])
        invariant ArmedAs(armed, all)
        invariant SentAs(sent, |before|, all)
      {
        ghost var try := OneTry(devs[n], armOk[n]);
        var sends := ArmOne(devs[n], armOk[n], all);
        SentMore(sent, |before|, all, try, sends);
        TriesSnoc(devs, armOk, n);
        if sends {
          sent := sent + {|all|};
        }
        all := all + try;
      }
      assert devs[..|devs|] == devs && armOk[..|devs|] == armOk;
    }

    /** refreshPVC, called for each alias in turn with the scrape's own `refreshed` flag. */
    method LookupAll(aliases: seq<string>, fetched: map<string, string>) returns (ls: seq<string>, fetches: nat)
      modifies this`pvcMap
      ensures ls == Labels(old(pvcMap), fetched, aliases)
      ensures pvcMap == AfterLookups(old(pvcMap), fetched, aliases)
      ensures fetches == if FirstBlank(old(pvcMap), aliases) < |aliases| then 1 else 0
    {
      ghost var first := FirstBlank(pvcMap, aliases);
      var refreshed := false;
      ls, fetches := [], 0;
      for i := 0 to |aliases|
        invariant refreshed <==> first < i
        invariant pvcMap == if first < i then fetched else old(pvcMap)
        invariant fetches == if first < i then 1 else 0
        invariant ls == Labels(old(pvcMap), fetched, aliases)[..i]
      {
        var pvc := PvcOf(pvcMap, aliases[i]);
        if pvc == "" && !refreshed {
          refreshed := true;
          fetches := fetches + 1;
          pvcMap := fetched;
          pvc := PvcOf(pvcMap, aliases[i]);
        }
        ls := ls + [pvc];
      }
    }

    method ListQueues(v: Virtio, path: string, disk: string, bus: string, nq: int) returns (qs: seq<Virtqueue>)
      ensures qs == if nq <= 0 then [] else QueuesOf(v, path, disk, bus, nq)
    {
      qs := [];
      var qi := 0;
      while qi < nq
        invariant 0 <= qi && (if nq >= 0 then qi <= nq else qi == 0) && qs == QueuesOf(v, path, disk, bus, qi)
      {
        if (path, qi) in v.queues {
          qs := qs + [Virtqueue(disk, bus, qi, v.queues[(path, qi)])];
        }
        qi := qi + 1;
      }
    }

    /** One of the two loops over the virtio devices, for virtio-blk disks or virtio-scsi controllers. */
    method ListBus(v: Virtio, scsi: bool) returns (qs: seq<Virtqueue>)
      modifies this`numQueues
      ensures qs == BusQueues(old(numQueues), v, scsi, |v.devices|)
      ensures CacheGrows(old(numQueues), numQueues, v)
    {
      qs := [];
      for k := 0 to |v.devices|
        invariant qs == BusQueues(old(numQueues), v, scsi, k)
        invariant CacheGrows(old(numQueues), numQueues, v)
      {
        var d := v.devices[k];
        var disk := Label(d, scsi);
        CacheGrowsCount(old(numQueues), numQueues, v, d.path);
        if disk.None? {
          continue;
        }
        var nq := 0;
        if d.path in numQueues {
          nq := numQueues[d.path];
        } else {
          if d.path !in v.counts {
            continue;
          }
          nq := v.counts[d.path];
          if nq > 0 {
            numQueues := numQueues[d.path := nq];
          }
        }
        var more := ListQueues(v, d.path, disk.value, Bus(scsi), nq);
        qs := qs + more;
      }
    }

    method ListVirtqueues(v: Virtio) returns (qs: seq<Virtqueue>)
      modifies this`numQueues
      ensures qs == AllQueues(old(numQueues), v)
      ensures CacheGrows(old(numQueues), numQueues, v)
    {
      var blk := ListBus(v, false);
      ghost var mid := numQueues;
      var scsi := ListBus(v, true);
      GrownCacheSameQueues(old(numQueues), mid, v, true, |v.devices|);
      qs := blk + scsi;
    }

    /** scrapeVM on an open connection: nothing if the block statistics cannot be read. */
    method ScrapeVM(a: Answers, ghost before: seq<ArmTry>) returns (r: Option<VmiResult>, ghost sent: set<nat>)
      requires a.blockStats.Some? ==> |a.armOk| == |a.blockStats.value|
      requires ArmedAs(armed, before)
      modifies this
      ensures a.blockStats.None? ==>
        r.None? && armed == old(armed) && numQueues == old(numQueues) && pvcMap == old(pvcMap)
      ensures a.blockStats.Some? ==>
        && r == Some(Result(old(pvcMap), old(numQueues), a))
        && pvcMap == AfterLookups(old(pvcMap), a.fetched, LookedUp(old(numQueues), a))
        && ArmedAs(armed, before + ArmTries(a.blockStats.value, a.armOk))
        && SentAs(sent, |before|, before + ArmTries(a.blockStats.value, a.armOk))
        && (if a.virtio.None? then numQueues == old(numQueues)
          else CacheGrows(old(numQueues), numQueues, a.virtio.value))
    {
      sent := {};
      if a.blockStats.None? {
        return None, sent;
      }
      var devs := a.blockStats.value;
      sent := ArmDevices(devs, a.armOk, before);
      var hist := HistDevices(devs);
      var queues := [];
      if a.virtio.Some? {
        queues := ListVirtqueues(a.virtio.value);
      }
      var ls, _ := LookupAll(Disks(hist) + BlkDisks(queues), a.fetched);
      r := Some(Labelled(hist, queues, ls));
    }
  }

  // ---- The result of a scrape ----

  /** What the VM and the cluster answer during one scrape. */
  datatype Answers = Answers(blockStats: Option<seq<BlockDevice>>, armOk: seq<bool>, virtio: Option<Virtio>,
                             fetched: map<string, string>)

  datatype HistDevice = HistDevice(disk: string, stats: BlockStats)
  datatype DeviceResult = DeviceResult(disk: string, pvc: string, stats: BlockStats)
  datatype VirtqueueResult = VirtqueueResult(pvc: string, vq: Virtqueue)
  datatype VmiResult = VmiResult(devices: seq<DeviceResult>, virtqueues: seq<VirtqueueResult>)

  /** The named disks of the reply that already report histograms, in order. */
  function HistDevices(devs: seq<BlockDevice>): seq<HistDevice> {
    if devs == [] then []
    else
      var rest, d := HistDevices(devs[..|devs| - 1]), devs[|devs| - 1];
      match ExtractDiskInfo(EffectiveQDev(d))
      case None => rest
      case Some(info) => if d.HasHistograms() then rest + [HistDevice(info.alias, d.stats)] else rest
  }

  function Disks(ds: seq<HistDevice>): seq<string> {
    seq(|ds|, i requires 0 <= i < |ds| => ds[i].disk)
  }

  /** The disks of the virtio-blk queues, which come first. */
  function BlkDisks(qs: seq<Virtqueue>): (r: seq<string>)
    ensures |r| <= |qs|
    ensures forall i :: 0 <= i < |r| ==> qs[i].bus == "virtio" && r[i] == qs[i].disk
    ensures |r| < |qs| ==> qs[|r|].bus != "virtio"
  {
    if qs == [] || qs[0].bus != "virtio" then [] else [qs[0].disk] + BlkDisks(qs[1..])
  }

  function Labelled(ds: seq<HistDevice>, qs: seq<Virtqueue>, ls: seq<string>): VmiResult
    requires |ls| == |Disks(ds) + BlkDisks(qs)|
  {
    VmiResult(
      seq(|ds|, i requires 0 <= i < |ds| => DeviceResult(ds[i].disk, ls[i], ds[i].stats)),
      seq(|qs|, i requires 0 <= i < |qs| => VirtqueueResult(if |ds| + i < |ls| then ls[|ds| + i] else "", qs[i])))
  }

  function ScrapedQueues(cache: map<string, int>, a: Answers): seq<Virtqueue> {
    if a.virtio.None? then [] else AllQueues(cache, a.virtio.value)
  }

  /** The aliases a scrape looks up, in order: its disks', then its virtio-blk queues'. */
  function LookedUp(cache: map<string, int>, a: Answers): seq<string>
    requires a.blockStats.Some?
  {
    Disks(HistDevices(a.blockStats.value)) + BlkDisks(ScrapedQueues(cache, a))
  }

  /** What a scrape with these caches returns. */
  function Result(pvcMap: map<string, string>, cache: map<string, int>, a: Answers): VmiResult
    requires a.blockStats.Some?
  {
    Labelled(HistDevices(a.blockStats.value), ScrapedQueues(cache, a), Labels(pvcMap, a.fetched, LookedUp(cache, a)))
  }

  lemma {:induction false} GrownCacheSameQueues(earlier: map<string, int>, later: map<string, int>, v: Virtio,
                                                scsi: bool, k: nat)
    requires CacheGrows(earlier, later, v) && k <= |v.devices|
    ensures BusQueues(later, v, scsi, k) == BusQueues(earlier, v, scsi, k)
  {
    if k > 0 {
      GrownCacheSameQueues(earlier, later, v, scsi, k - 1);
      CacheGrowsCount(earlier, later, v, v.devices[k - 1].path);
    }
  }

  lemma TriesSnoc(devs: seq<BlockDevice>, armOk: seq<bool>, n: nat)
    requires |armOk| == |devs| && n < |devs|
    ensures ArmTries(devs[..n + 1], armOk[..n + 1]) == ArmTries(devs[..n], armOk[..n]) + OneTry(devs[n], armOk[n])
  {
    assert devs[..n + 1][..n] == devs[..n] && armOk[..n + 1][..n] == armOk[..n];
  }

  lemma SentMore(sent: set<nat>, n: nat, tries: seq<ArmTry>, more: seq<ArmTry>, sends: bool)
    requires |more| <= 1 && n <= |tries| && SentAs(sent, n, tries) && (sends <==> Sends(tries + more, |tries|))
    ensures SentAs(if sends then sent + {|tries|} else sent, n, tries + more)
  {
    SendsMore(tries, more);
  }

  lemma SendsMore(tries: seq<ArmTry>, more: seq<ArmTry>)
    requires |more| <= 1
    ensures forall i: nat :: i != |tries| ==> (Sends(tries + more, i) <==> Sends(tries, i))
    ensures !Sends(tries, |tries|)
  {
    if more == [] {
      assert tries + more == tries;
    } else {
      assert more == [more[0]];
      SendsSnoc(tries, more[0]);
    }
  }

  lemma SendsSnoc(tries: seq<ArmTry>, t: ArmTry)
    ensures forall i: nat :: i < |tries| ==> (Sends(tries + [t], i) <==> Sends(tries, i))
    ensures Sends(tries + [t], |tries|) <==> !t.hasHistograms && !ArmedBy(tries, t.deviceId)
  {
    var all := tries + [t];
    assert all[..|tries|] == tries;
    forall i: nat | i < |tries| ensures Sends(all, i) <==> Sends(tries, i) { assert all[..i] == tries[..i]; }
  }
}

/** The start and histogram maps that the block and NFS tracepoint handlers share, as a state
    machine over traces of handler calls and map evictions, and what those maps hold after any trace. */
module LatencyMaps {
  import opened Bits

  const MAX_SLOTS: nat := 26
  const NO_OP: nat := 0xff

  type Slots = s: seq<u64> | |s| == 26 witness seq(26, i => 0)
  const ZERO_HIST: Slots := [0, 0, 0, 0, 0, 0, 0, 0, 0, 0, 0, 0, 0, 0, 0, 0, 0, 0, 0, 0, 0, 0, 0, 0, 0, 0]

  datatype HistKey = HistKey(dev: u32, op: nat)

  /** What the handlers do to the maps. A `Finish` without a histogram key is a completion whose
      operation is not recognised, or one for which no histogram is found even after installing one; the two
      evictions are the kernel dropping a least-recently-used entry. */
  datatype Event<K> =
    | Start(key: K, now: u64)
    | Finish(key: K, now: u64, hist: Option<HistKey>)
    | EvictStart(key: K)
    | EvictHist(hk: HistKey)
    | Ignored

  datatype Maps<K> = Maps(start: map<K, u64>, hists: map<HistKey, Slots>)

  /** (__s64)(now - then) on unsigned 64-bit clocks. */
  function SignedDelta(now: u64, then_: u64): int {
    var d := now - then_;
    if d >= TWO_63 then d - TWO_64 else if d < 0 - TWO_63 then d + TWO_64 else d
  }

  /** It is the difference modulo 2^64, read as a signed word. */
  lemma SignedDeltaWraps(now: u64, then_: u64)
    ensures 0 - TWO_63 <= SignedDelta(now, then_) < TWO_63
    ensures SignedDelta(now, then_) % TWO_64 == (now - then_) % TWO_64
  {
  }

  /** A difference is not negative exactly if the later time is less than 2^63 ns on, on a clock that wraps. */
  lemma Elapsed(then_: u64, now: u64, ns: nat)
    ensures SignedDelta(now, then_) == ns <==> ns < TWO_63 && (then_ + ns) % TWO_64 == now
  {
  }

  function Micros(ns: nat): nat {
    if ns / 1000 == 0 then 1 else ns / 1000
  }

  function SlotOf(us: nat): (slot: nat)
    ensures slot < MAX_SLOTS
  {
    var l := FloorLog2(us);
    if l >= MAX_SLOTS then MAX_SLOTS - 1 else l
  }

  function Bump(slots: Slots, slot: nat): Slots
    requires slot < MAX_SLOTS
  {
    slots[slot := (slots[slot] + 1) % TWO_64]
  }

  function AddSample(hists: map<HistKey, Slots>, hk: HistKey, us: nat): map<HistKey, Slots> {
    var slots := if hk in hists then hists[hk] else ZERO_HIST;
    hists[hk := Bump(slots, SlotOf(us))]
  }

  function Step<K>(m: Maps<K>, e: Event<K>): Maps<K> {
    match e
    case Start(k, now) => m.(start := m.start[k := now])
    case Finish(k, now, hist) =>
      if k !in m.start then m else
      var delta := SignedDelta(now, m.start[k]);
      var m' := m.(start := m.start - {k});
      if delta < 0 || hist.None? then m'
      else m'.(hists := AddSample(m.hists, hist.value, Micros(delta)))
    case EvictStart(k) => m.(start := m.start - {k})
    case EvictHist(hk) => m.(hists := m.hists - {hk})
    case Ignored => m
  }

  function Run<K>(t: seq<Event<K>>): Maps<K> {
    if t == [] then Maps(map[], map[]) else Step(Run(t[..|t| - 1]), t[|t| - 1])
  }

  // ---- The samples a trace records, said without the maps ----

  ghost predicate Touches<K>(e: Event<K>, k: K) {
    (e.Start? || e.Finish? || e.EvictStart?) && e.key == k
  }

  /** Event i started the request that is still pending for key k at the end of t. */
  ghost predicate PendingSince<K>(t: seq<Event<K>>, i: nat, k: K) {
    && i < |t| && t[i].Start? && t[i].key == k
    && forall m :: i < m < |t| ==> !Touches(t[m], k)
  }

  /** Completion j ends the request that event i, the latest start with its key, began. */
  ghost predicate Matches<K>(t: seq<Event<K>>, i: nat, j: nat) {
    && i < j < |t| && t[j].Finish? && PendingSince(t[..j], i, t[j].key)
  }

  ghost predicate Sampled<K>(t: seq<Event<K>>, j: nat, hk: HistKey, ns: nat) {
    exists i: nat :: Matches(t, i, j) && t[j].hist == Some(hk) && SignedDelta(t[j].now, t[i].now) == ns
  }

  ghost function SampleAt<K>(t: seq<Event<K>>, j: nat, hk: HistKey): (r: Option<nat>)
    ensures r.Some? ==> Sampled(t, j, hk, r.value)
    ensures r.None? ==> forall ns: nat :: !Sampled(t, j, hk, ns)
  {
    if ns: nat :| Sampled(t, j, hk, ns) then Some(ns) else None
  }

  /** Latencies in nanoseconds recorded for hk since its histogram was last evicted, oldest first. */
  ghost function Recorded<K(!new)>(t: seq<Event<K>>, hk: HistKey): seq<nat> {
    if t == [] then []
    else
      var j := |t| - 1;
      if t[j] == EvictHist(hk) then []
      else
        match SampleAt(t, j, hk)
        case Some(ns) => Recorded(t[..j], hk) + [ns]
        case None => Recorded(t[..j], hk)
  }

  function CountSlot(ds: seq<nat>, slot: nat): (n: nat)
    ensures n <= |ds|
  {
    if ds == [] then 0
    else CountSlot(ds[..|ds| - 1], slot) + (if SlotOf(Micros(ds[|ds| - 1])) == slot then 1 else 0)
  }

  function SlotCounts(ds: seq<nat>): Slots {
    seq(26, i requires 0 <= i < 26 => CountSlot(ds, i) % TWO_64)
  }

  lemma CountSlotSnoc(ds: seq<nat>, ns: nat, i: nat)
    ensures CountSlot(ds + [ns], i) == CountSlot(ds, i) + (if SlotOf(Micros(ns)) == i then 1 else 0)
  {
    assert (ds + [ns])[..|ds|] == ds;
  }

  lemma SlotCountsSnoc(ds: seq<nat>, ns: nat)
    ensures SlotCounts(ds + [ns]) == Bump(SlotCounts(ds), SlotOf(Micros(ns)))
  {
    var slot, s, s' := SlotOf(Micros(ns)), SlotCounts(ds), SlotCounts(ds + [ns]);
    forall i: nat | i < 26 ensures s'[i] == Bump(s, slot)[i] {
      CountSlotSnoc(ds, ns, i);
      WrapAdd(CountSlot(ds, i), 1);
    }
  }

  lemma WrapAdd(a: nat, c: nat)
    ensures (a % TWO_64 + c) % TWO_64 == (a + c) % TWO_64
  {
  }

  /** A start is consumed by at most one completion, and a completion consumes at most one start. */
  lemma MatchesIsOneToOne<K>(t: seq<Event<K>>, i: nat, j: nat, i': nat, j': nat)
    requires Matches(t, i, j) && Matches(t, i', j')
    ensures i == i' <==> j == j'
  {
    if i == i' && j < j' { assert Touches(t[..j'][j], t[j'].key); }
    if i == i' && j' < j { assert Touches(t[..j][j'], t[j].key); }
    if j == j' && i < i' { assert Touches(t[..j][i'], t[j].key); }
    if j == j' && i' < i { assert Touches(t[..j][i], t[j].key); }
  }

  /** The start map holds exactly the pending requests, each with the time of its latest start. */
  lemma {:induction false} StartMapIsPending<K(!new)>(t: seq<Event<K>>, k: K)
    ensures k in Run(t).start <==> exists i: nat :: PendingSince(t, i, k)
    ensures forall i: nat :: PendingSince(t, i, k) ==> k in Run(t).start && Run(t).start[k] == t[i].now
  {
    if t != [] {
      var j := |t| - 1;
      var p := t[..j];
      StartMapIsPending(p, k);
      if t[j].Start? && t[j].key == k {
        assert PendingSince(t, j, k);
      } else if !Touches(t[j], k) {
        forall i: nat ensures PendingSince(t, i, k) <==> PendingSince(p, i, k) {
          if PendingSince(p, i, k) {
            forall m | i < m < |t| ensures !Touches(t[m], k) { if m < j { assert t[m] == p[m]; } }
          }
          if PendingSince(t, i, k) {
            forall m | i < m < j ensures !Touches(p[m], k) { assert p[m] == t[m]; }
          }
        }
      } else {
        forall i: nat ensures !PendingSince(t, i, k) { }
      }
    }
  }

  /** The last event of t samples ns for hk exactly when the handler finds a start to subtract. */
  lemma SampledIsHandled<K(!new)>(t: seq<Event<K>>, hk: HistKey, ns: nat)
    requires t != []
    ensures Sampled(t, |t| - 1, hk, ns) <==>
      var e, m := t[|t| - 1], Run(t[..|t| - 1]);
      e.Finish? && e.hist == Some(hk) && e.key in m.start && SignedDelta(e.now, m.start[e.key]) == ns
  {
    var j := |t| - 1;
    var e, m := t[j], Run(t[..j]);
    if e.Finish? {
      StartMapIsPending(t[..j], e.key);
      if e.hist == Some(hk) && e.key in m.start && SignedDelta(e.now, m.start[e.key]) == ns {
        var i: nat :| PendingSince(t[..j], i, e.key);
        assert Matches(t, i, j);
      }
    }
  }

  /** The last event samples one latency at most. */
  lemma SampleIsUnique<K(!new)>(t: seq<Event<K>>, k: HistKey, ns: nat, ns': nat)
    requires t != [] && Sampled(t, |t| - 1, k, ns) && Sampled(t, |t| - 1, k, ns')
    ensures ns == ns'
  {
    SampledIsHandled(t, k, ns);
    SampledIsHandled(t, k, ns');
  }

  /** The latency the handler adds to hk's histogram on the last event of t, if any. */
  lemma LastSample<K(!new)>(t: seq<Event<K>>, hk: HistKey)
    requires t != []
    ensures var e, m := t[|t| - 1], Run(t[..|t| - 1]);
      SampleAt(t, |t| - 1, hk) ==
        if e.Finish? && e.hist == Some(hk) && e.key in m.start && SignedDelta(e.now, m.start[e.key]) >= 0
        then Some(SignedDelta(e.now, m.start[e.key])) else None
  {
    var j, e, m := |t| - 1, t[|t| - 1], Run(t[..|t| - 1]);
    forall n: nat
      ensures Sampled(t, j, hk, n) <==>
        e.Finish? && e.hist == Some(hk) && e.key in m.start && SignedDelta(e.now, m.start[e.key]) == n
    {
      SampledIsHandled(t, hk, n);
    }
    if SampleAt(t, j, hk).None? && e.Finish? && e.key in m.start && SignedDelta(e.now, m.start[e.key]) >= 0 {
      var ns: nat := SignedDelta(e.now, m.start[e.key]);
      assert !Sampled(t, j, hk, ns);
    }
  }

  /** After any trace, a histogram exists exactly for the keys with recorded samples, and its slots
      count those samples by clamped floor(log2(microseconds)). */
  lemma {:induction false} HistogramIsRecorded<K(!new)>(t: seq<Event<K>>, hk: HistKey)
    ensures hk in Run(t).hists <==> Recorded(t, hk) != []
    ensures hk in Run(t).hists ==> Run(t).hists[hk] == SlotCounts(Recorded(t, hk))
  {
    if t != [] {
      var j := |t| - 1;
      HistogramIsRecorded(t[..j], hk);
      LastSample(t, hk);
      assert SlotCounts([]) == ZERO_HIST;
      match SampleAt(t, j, hk)
      case Some(ns) => SlotCountsSnoc(Recorded(t[..j], hk), ns);
      case None =>
    }
  }

  // ---- The maps as the handlers update them ----

  method ClampedLog(us: u64) returns (slot: nat)
    ensures slot == SlotOf(us)
  {
    slot := Log2l(us);
    if slot >= MAX_SLOTS {
      slot := MAX_SLOTS - 1;
    }
  }

  class Probe<K(==)> {
    var start: map<K, u64>
    var hists: map<HistKey, Slots>

    function State(): Maps<K>
      reads this
    {
      Maps(start, hists)
    }

    constructor ()
      ensures State() == Run([])
    {
      start, hists := map[], map[];
    }

    method OnStart(key: K, now: u64)
      modifies this
      ensures State() == Step(old(State()), Start(key, now))
    {
      start := start[key := now];
    }

    /** nfs_record_latency, and the same statements in the block completion handler. `installs` says whether a
        missing histogram is found after it has been installed. */
    method OnFinish(key: K, now: u64, hist: Option<HistKey>, installs: bool)
      modifies this
      ensures State() == Step(old(State()), Finish(key, now, if Found(old(hists), hist, installs) then hist else None))
    {
      if key !in start {
        return;
      }
      var delta := SignedDelta(now, start[key]);
      start := start - {key};
      if delta < 0 {
        return;
      }
      delta := delta / 1000;
      if delta == 0 {
        delta := 1;
      }
      if hist.None? {
        return;
      }
      var hk := hist.value;
      if hk !in hists {
        if !installs {
          return;
        }
        hists := hists[hk := ZERO_HIST];
      }
      var slot := ClampedLog(delta);
      hists := hists[hk := Bump(hists[hk], slot)];
    }
  }

  predicate Found(hists: map<HistKey, Slots>, hist: Option<HistKey>, installs: bool) {
    hist.Some? && (hist.value in hists || installs)
  }

  // ---- Block layer handlers ----

  datatype BlockReq = BlockReq(dev: u32, sector: u64)

  function ClassifyOp(c: char): (op: nat)
    ensures op <= 3 || op == NO_OP
    ensures op == NO_OP <==> c !in {'R', 'W', 'D', 'F'}
  {
    match c
    case 'R' => 0
    case 'W' => 1
    case 'D' => 2
    case 'F' => 3
    case _ => NO_OP
  }

  function BlockIssue(dev: u32, sector: u64, rw: char, now: u64): Event<BlockReq> {
    if ClassifyOp(rw) == NO_OP then Ignored else Start(BlockReq(dev, sector), now)
  }

  function BlockHist(dev: u32, rw: char): Option<HistKey> {
    if ClassifyOp(rw) == NO_OP then None else Some(HistKey(dev, ClassifyOp(rw)))
  }

  function BlockComplete(dev: u32, sector: u64, rw: char, now: u64, found: bool): Event<BlockReq> {
    Finish(BlockReq(dev, sector), now, if found then BlockHist(dev, rw) else None)
  }

  method OnBlockIssue(p: Probe<BlockReq>, dev: u32, sector: u64, rw: char, now: u64)
    modifies p
    ensures p.State() == Step(old(p.State()), BlockIssue(dev, sector, rw, now))
  {
    if ClassifyOp(rw) == NO_OP {
      return;
    }
    p.OnStart(BlockReq(dev, sector), now);
  }

  method OnBlockComplete(p: Probe<BlockReq>, dev: u32, sector: u64, rw: char, now: u64, installs: bool)
    modifies p
    ensures p.State() ==
      Step(old(p.State()), BlockComplete(dev, sector, rw, now, Found(old(p.hists), BlockHist(dev, rw), installs)))
  {
    p.OnFinish(BlockReq(dev, sector), now, BlockHist(dev, rw), installs);
  }

  /** Traces the block handlers and the kernel's evictions can produce. */
  ghost predicate IsBlockEvent(e: Event<BlockReq>) {
    e.Finish? && e.hist.Some? ==> e.hist.value.op <= 3 && e.hist.value.dev == e.key.dev
  }

  ghost predicate IsBlockTrace(t: seq<Event<BlockReq>>) {
    forall e :: e in t ==> IsBlockEvent(e)
  }

  // ---- NFS tracepoint handlers ----

  datatype NfsReq = NfsReq(dev: u32, offset: u64, count: u32, op: nat)

  function NfsInitiate(dev: u32, offset: u64, count: u32, write: bool, now: u64): Event<NfsReq> {
    Start(NfsReq(dev, offset, count, FromBool(write)), now)
  }

  function NfsHist(dev: u32, write: bool): Option<HistKey> { Some(HistKey(dev, FromBool(write))) }

  function NfsDone(dev: u32, offset: u64, count: u32, write: bool, now: u64, found: bool): Event<NfsReq> {
    Finish(NfsReq(dev, offset, count, FromBool(write)), now, if found then NfsHist(dev, write) else None)
  }

  method OnNfsInitiate(p: Probe<NfsReq>, dev: u32, offset: u64, count: u32, write: bool, now: u64)
    modifies p
    ensures p.State() == Step(old(p.State()), NfsInitiate(dev, offset, count, write, now))
  {
    p.OnStart(NfsReq(dev, offset, count, FromBool(write)), now);
  }

  method OnNfsDone(
      p: Probe<NfsReq>, dev: u32, offset: u64, count: u32, write: bool, now: u64, installs: bool)
    modifies p
    ensures p.State() ==
      Step(old(p.State()), NfsDone(dev, offset, count, write, now, Found(old(p.hists), NfsHist(dev, write), installs)))
  {
    p.OnFinish(NfsReq(dev, offset, count, FromBool(write)), now, NfsHist(dev, write), installs);
  }
}

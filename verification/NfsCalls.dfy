/** bpf/nfs_latency.c said on the calls of its handlers alone: which initiation a completed page I/O is measured from,
    and which latencies the histogram of a device and a direction counts. */
module NfsCalls {
  import opened Bits
  import opened LatencyMaps

  /** A handler call with the fields of its request, the read or the write handler, or the kernel dropping an entry
      of one of the maps. `installs` says whether a missing histogram is found after it has been installed. */
  datatype Call =
    | Initiate(dev: u32, offset: u64, count: u32, write: bool, now: u64)
    | Done(dev: u32, offset: u64, count: u32, write: bool, now: u64, installs: bool)
    | LoseRequest(dev: u32, offset: u64, count: u32, write: bool)
    | LoseHistogram(dev: u32, op: nat)

  /** Both calls are about one request: the same bytes of the same device in the same direction. */
  ghost predicate SameRequest(c: Call, d: Call) {
    && !c.LoseHistogram? && !d.LoseHistogram?
    && c.dev == d.dev && c.offset == d.offset && c.count == d.count && c.write == d.write
  }

  /** Done call j is measured from initiation i: the latest call about its request. */
  ghost predicate MeasuredFrom(cs: seq<Call>, i: nat, j: nat) {
    && i < j < |cs| && cs[j].Done? && cs[i].Initiate? && SameRequest(cs[i], cs[j])
    && forall m :: i < m < j ==> !SameRequest(cs[m], cs[j])
  }

  ghost predicate MeasuredAs(cs: seq<Call>, i: nat, j: nat, ns: nat) {
    MeasuredFrom(cs, i, j) && (cs[i].now + ns) % TWO_64 == cs[j].now
  }

  /** Call j ends a read or a write on this device ns nanoseconds after its initiation. */
  ghost predicate Takes(cs: seq<Call>, j: nat, dev: u32, write: bool, ns: nat) {
    && j < |cs| && cs[j].Done? && cs[j].dev == dev && cs[j].write == write && ns < TWO_63
    && exists i: nat :: MeasuredAs(cs, i, j, ns)
  }

  ghost function TimeOf(cs: seq<Call>, j: nat, dev: u32, write: bool): (r: Option<nat>)
    ensures r.Some? ==> Takes(cs, j, dev, write, r.value)
    ensures r.None? ==> forall ns: nat :: !Takes(cs, j, dev, write, ns)
  {
    if ns: nat :| Takes(cs, j, dev, write, ns) then Some(ns) else None
  }

  /** Reads are operation 0, writes operation 1. */
  function Op(write: bool): nat { if write then 1 else 0 }

  /** The latencies of a device's reads or writes since their histogram was last dropped. One is missed when the
      histogram has to be installed and is not found then. */
  ghost function Latencies(cs: seq<Call>, dev: u32, write: bool): seq<nat> {
    if cs == [] then []
    else
      var j := |cs| - 1;
      var before := Latencies(cs[..j], dev, write);
      if cs[j] == LoseHistogram(dev, Op(write)) then []
      else
        match TimeOf(cs, j, dev, write)
        case None => before
        case Some(ns) => if before != [] || cs[j].installs then before + [ns] else before
  }

  ghost predicate Counts(hists: map<HistKey, Slots>, cs: seq<Call>) {
    && (forall k :: k in hists ==> k.op <= 1)
    && forall dev, write :: CountsOp(hists, cs, dev, write)
  }

  ghost predicate CountsOp(hists: map<HistKey, Slots>, cs: seq<Call>, dev: u32, write: bool) {
    var k, ds := HistKey(dev, Op(write)), Latencies(cs, dev, write);
    (k in hists <==> ds != []) && (k in hists ==> hists[k] == SlotCounts(ds))
  }

  // ---- What the handlers do ----

  function EventOf(hists: map<HistKey, Slots>, c: Call): Event<NfsReq> {
    match c
    case Initiate(dev, offset, count, write, now) => NfsInitiate(dev, offset, count, write, now)
    case Done(dev, offset, count, write, now, installs) =>
      NfsDone(dev, offset, count, write, now, Found(hists, NfsHist(dev, write), installs))
    case LoseRequest(dev, offset, count, write) => EvictStart(NfsReq(dev, offset, count, Op(write)))
    case LoseHistogram(dev, op) => EvictHist(HistKey(dev, op))
  }

  function Events(cs: seq<Call>): (t: seq<Event<NfsReq>>)
    ensures |t| == |cs|
  {
    if cs == [] then []
    else
      var t := Events(cs[..|cs| - 1]);
      t + [EventOf(Run(t).hists, cs[|cs| - 1])]
  }

  lemma {:induction false} EventsPrefix(cs: seq<Call>, j: nat)
    requires j <= |cs|
    ensures Events(cs)[..j] == Events(cs[..j])
  {
    if j < |cs| {
      var init := cs[..|cs| - 1];
      EventsPrefix(init, j);
      assert init[..j] == cs[..j];
      assert Events(cs)[..j] == Events(init)[..j];
    } else {
      assert cs[..j] == cs;
    }
  }

  lemma EventsAt(cs: seq<Call>, i: nat)
    requires i < |cs|
    ensures Events(cs)[i] == EventOf(Run(Events(cs[..i])).hists, cs[i])
  {
    EventsPrefix(cs, i + 1);
    assert cs[..i + 1][..i] == cs[..i];
    assert Events(cs)[i] == Events(cs)[..i + 1][i];
  }

  function KeyOf(c: Call): NfsReq
    requires !c.LoseHistogram?
  {
    NfsReq(c.dev, c.offset, c.count, Op(c.write))
  }

  lemma Touched(hists: map<HistKey, Slots>, c: Call, d: Call)
    requires d.Done?
    ensures Touches(EventOf(hists, c), KeyOf(d)) <==> SameRequest(c, d)
    ensures EventOf(hists, c).Start? <==> c.Initiate?
    ensures c.Initiate? ==> EventOf(hists, c).now == c.now
    ensures EventOf(hists, d).Finish? && EventOf(hists, d).key == KeyOf(d) && EventOf(hists, d).now == d.now
  {
  }

  lemma TouchedAt(cs: seq<Call>, m: nat, d: Call)
    requires m < |cs| && d.Done?
    ensures Touches(Events(cs)[m], KeyOf(d)) <==> SameRequest(cs[m], d)
    ensures Events(cs)[m].Start? <==> cs[m].Initiate?
    ensures cs[m].Initiate? ==> Events(cs)[m].now == cs[m].now
  {
    EventsAt(cs, m);
    Touched(Run(Events(cs[..m])).hists, cs[m], d);
  }

  lemma CompletesNow(cs: seq<Call>, j: nat)
    requires j < |cs| && cs[j].Done?
    ensures Events(cs)[j].Finish? && Events(cs)[j].key == KeyOf(cs[j]) && Events(cs)[j].now == cs[j].now
  {
    EventsAt(cs, j);
    Touched(Run(Events(cs[..j])).hists, cs[j], cs[j]);
  }

  lemma MatchesIsMeasured(cs: seq<Call>, i: nat, j: nat)
    requires j < |cs| && cs[j].Done?
    ensures Matches(Events(cs), i, j) <==> MeasuredFrom(cs, i, j)
    ensures MeasuredFrom(cs, i, j) ==> Events(cs)[i].now == cs[i].now
  {
    var t := Events(cs);
    CompletesNow(cs, j);
    forall m: nat | m < j
      ensures Touches(t[..j][m], KeyOf(cs[j])) <==> SameRequest(cs[m], cs[j])
      ensures t[..j][m].Start? <==> cs[m].Initiate?
      ensures cs[m].Initiate? ==> t[m].now == cs[m].now
    {
      TouchedAt(cs, m, cs[j]);
    }
  }

  lemma MatchedAs(cs: seq<Call>, i: nat, j: nat, ns: nat)
    requires j < |cs| && cs[j].Done?
    ensures ns < TWO_63 && MeasuredAs(cs, i, j, ns) <==>
      Matches(Events(cs), i, j) && SignedDelta(Events(cs)[j].now, Events(cs)[i].now) == ns
  {
    MatchesIsMeasured(cs, i, j);
    CompletesNow(cs, j);
    if MeasuredFrom(cs, i, j) { Elapsed(cs[i].now, cs[j].now, ns); }
  }

  lemma HistOf(hists: map<HistKey, Slots>, c: Call, dev: u32, write: bool)
    requires c.Done?
    ensures EventOf(hists, c).hist == Some(HistKey(dev, Op(write))) <==>
      c.dev == dev && c.write == write && (HistKey(dev, Op(write)) in hists || c.installs)
  {
  }

  lemma MeasuredIsMatched(cs: seq<Call>, j: nat, ns: nat)
    requires j < |cs| && cs[j].Done?
    ensures ns < TWO_63 && (exists i: nat :: MeasuredAs(cs, i, j, ns)) <==>
      exists i: nat :: Matches(Events(cs), i, j) && SignedDelta(Events(cs)[j].now, Events(cs)[i].now) == ns
  {
    if i: nat :| ns < TWO_63 && MeasuredAs(cs, i, j, ns) { MatchedAs(cs, i, j, ns); }
    if i: nat :| Matches(Events(cs), i, j) && SignedDelta(Events(cs)[j].now, Events(cs)[i].now) == ns {
      MatchedAs(cs, i, j, ns);
    }
  }

  /** The key the last call of cs is sampled under, if it is a completion. */
  lemma HistAt(cs: seq<Call>, dev: u32, write: bool)
    requires cs != []
    ensures var j, k := |cs| - 1, HistKey(dev, Op(write));
      && (Events(cs)[j].Finish? <==> cs[j].Done?)
      && (cs[j].Done? ==> (Events(cs)[j].hist == Some(k) <==>
           cs[j].dev == dev && cs[j].write == write && (Recorded(Events(cs[..j]), k) != [] || cs[j].installs)))
  {
    var j := |cs| - 1;
    EventsAt(cs, j);
    HistogramIsRecorded(Events(cs[..j]), HistKey(dev, Op(write)));
    if cs[j].Done? { HistOf(Run(Events(cs[..j])).hists, cs[j], dev, write); }
  }

  /** The last call of cs is sampled for a direction exactly when it takes that long and a histogram is found. */
  lemma SampledIsTaken(cs: seq<Call>, dev: u32, write: bool, ns: nat)
    requires cs != []
    ensures var j, k := |cs| - 1, HistKey(dev, Op(write));
      Sampled(Events(cs), j, k, ns) <==>
        Takes(cs, j, dev, write, ns) && (Recorded(Events(cs[..j]), k) != [] || cs[j].installs)
  {
    var j := |cs| - 1;
    HistAt(cs, dev, write);
    if cs[j].Done? { MeasuredIsMatched(cs, j, ns); }
  }

  lemma SampleIsTime(cs: seq<Call>, dev: u32, write: bool)
    requires cs != []
    ensures var j, k := |cs| - 1, HistKey(dev, Op(write));
      SampleAt(Events(cs), j, k) ==
        if TimeOf(cs, j, dev, write).Some? && (Recorded(Events(cs[..j]), k) != [] || cs[j].installs)
        then TimeOf(cs, j, dev, write) else None
  {
    var j, t, k := |cs| - 1, Events(cs), HistKey(dev, Op(write));
    var sample, time := SampleAt(t, j, k), TimeOf(cs, j, dev, write);
    if sample.Some? {
      SampledIsTaken(cs, dev, write, sample.value);
      assert Takes(cs, j, dev, write, sample.value);
    }
    if time.Some? { SampledIsTaken(cs, dev, write, time.value); }
    if sample.Some? && time.Some? { SampleIsUnique(t, k, sample.value, time.value); }
  }

  lemma LostIsLost(cs: seq<Call>, dev: u32, op: nat)
    requires cs != []
    ensures Events(cs)[|cs| - 1] == EvictHist(HistKey(dev, op)) <==> cs[|cs| - 1] == LoseHistogram(dev, op)
  {
    EventsAt(cs, |cs| - 1);
  }

  /** The latencies an NFS trace records are those of its calls. */
  lemma {:induction false} RecordedIsLatencies(cs: seq<Call>, dev: u32, write: bool)
    ensures Recorded(Events(cs), HistKey(dev, Op(write))) == Latencies(cs, dev, write)
  {
    if cs != [] {
      var j := |cs| - 1;
      RecordedIsLatencies(cs[..j], dev, write);
      EventsPrefix(cs, j);
      LostIsLost(cs, dev, Op(write));
      SampleIsTime(cs, dev, write);
    }
  }

  lemma {:induction false} KeysAreOps(cs: seq<Call>)
    ensures forall k :: k in Run(Events(cs)).hists ==> k.op <= 1
  {
    if cs != [] {
      var j := |cs| - 1;
      KeysAreOps(cs[..j]);
      EventsPrefix(cs, j);
      EventsAt(cs, j);
    }
  }

  lemma EventsCount(cs: seq<Call>)
    ensures Counts(Run(Events(cs)).hists, cs)
  {
    KeysAreOps(cs);
    forall dev, write ensures CountsOp(Run(Events(cs)).hists, cs, dev, write) {
      RecordedIsLatencies(cs, dev, write);
      HistogramIsRecorded(Events(cs), HistKey(dev, Op(write)));
    }
  }

  method Handle(p: Probe<NfsReq>, c: Call)
    modifies p
    ensures p.State() == Step(old(p.State()), EventOf(old(p.hists), c))
  {
    match c {
      case Initiate(dev, offset, count, write, now) => OnNfsInitiate(p, dev, offset, count, write, now);
      case Done(dev, offset, count, write, now, installs) => OnNfsDone(p, dev, offset, count, write, now, installs);
      case LoseRequest(dev, offset, count, write) => p.start := p.start - {NfsReq(dev, offset, count, Op(write))};
      case LoseHistogram(dev, op) => p.hists := p.hists - {HistKey(dev, op)};
    }
  }

  /** After any calls of the handlers and any evictions, the histogram of a device and a direction counts the
      latencies of exactly its completed requests: each measured from the latest call about the same bytes of the
      same device in the same direction, if that is an initiation. */
  method Replay(cs: seq<Call>) returns (p: Probe<NfsReq>)
    ensures fresh(p) && Counts(p.hists, cs)
  {
    p := new Probe<NfsReq>();
    for n := 0 to |cs|
      invariant fresh(p) && p.State() == Run(Events(cs[..n]))
    {
      assert cs[..n + 1][..n] == cs[..n];
      Handle(p, cs[n]);
    }
    assert cs[..|cs|] == cs;
    EventsCount(cs);
  }
}

/** bpf/block_latency.c said on the calls of its two handlers alone: which issue a completion is measured from, and
    which latencies the histogram of a device and an operation counts. */
module BlockCalls {
  import opened Bits
  import opened LatencyMaps

  /** A handler call with the fields of its tracepoint, or the kernel dropping an entry of one of the maps.
      `installs` says whether a missing histogram is found after it has been installed. */
  datatype Call =
    | Issue(dev: u32, sector: u64, rw: char, now: u64)
    | Complete(dev: u32, sector: u64, rw: char, now: u64, installs: bool)
    | LoseRequest(dev: u32, sector: u64)
    | LoseHistogram(dev: u32, op: nat)

  // ---- What is promised, on the calls ----

  /** The call is about the request to this sector of this device; an issue of an unknown operation is about none. */
  ghost predicate About(c: Call, dev: u32, sector: u64) {
    !c.LoseHistogram? && c.dev == dev && c.sector == sector && (c.Issue? ==> c.rw in {'R', 'W', 'D', 'F'})
  }

  /** Call i issued the request to this sector, and no later call is about that. */
  ghost predicate IssuedAt(cs: seq<Call>, i: nat, dev: u32, sector: u64) {
    && i < |cs| && cs[i].Issue? && About(cs[i], dev, sector)
    && forall m :: i < m < |cs| ==> !About(cs[m], dev, sector)
  }

  /** Completion j is measured from issue i: the latest call about its sector of its device. */
  ghost predicate MeasuredFrom(cs: seq<Call>, i: nat, j: nat) {
    i < j < |cs| && cs[j].Complete? && IssuedAt(cs[..j], i, cs[j].dev, cs[j].sector)
  }

  ghost predicate MeasuredAs(cs: seq<Call>, i: nat, j: nat, ns: nat) {
    MeasuredFrom(cs, i, j) && (cs[i].now + ns) % TWO_64 == cs[j].now
  }

  /** Call j completes an operation of this letter on this device ns nanoseconds after its issue, on a 64-bit clock
      that may wrap. */
  ghost predicate Takes(cs: seq<Call>, j: nat, dev: u32, rw: char, ns: nat) {
    && j < |cs| && cs[j].Complete? && cs[j].dev == dev && cs[j].rw == rw && ns < TWO_63
    && exists i: nat :: MeasuredAs(cs, i, j, ns)
  }

  ghost function TimeOf(cs: seq<Call>, j: nat, dev: u32, rw: char): (r: Option<nat>)
    ensures r.Some? ==> Takes(cs, j, dev, rw, r.value)
    ensures r.None? ==> forall ns: nat :: !Takes(cs, j, dev, rw, ns)
  {
    if ns: nat :| Takes(cs, j, dev, rw, ns) then Some(ns) else None
  }

  /** The latencies of these operations on this device since their histogram was last dropped. One is missed when
      the histogram has to be installed and is not found then. */
  ghost function Latencies(cs: seq<Call>, dev: u32, rw: char, op: nat): seq<nat> {
    if cs == [] then []
    else
      var j := |cs| - 1;
      var before := Latencies(cs[..j], dev, rw, op);
      if cs[j] == LoseHistogram(dev, op) then []
      else
        match TimeOf(cs, j, dev, rw)
        case None => before
        case Some(ns) => if before != [] || cs[j].installs then before + [ns] else before
  }

  /** The letters of operations and their indices in the labels. */
  ghost predicate IsOp(rw: char, op: nat) {
    (rw == 'R' && op == 0) || (rw == 'W' && op == 1) || (rw == 'D' && op == 2) || (rw == 'F' && op == 3)
  }

  /** The histograms that the latencies of the calls come to. */
  ghost predicate Counts(hists: map<HistKey, Slots>, cs: seq<Call>) {
    && (forall k :: k in hists ==> k.op <= 3)
    && forall dev, rw, op :: IsOp(rw, op) ==> CountsOp(hists, cs, dev, rw, op)
  }

  ghost predicate CountsOp(hists: map<HistKey, Slots>, cs: seq<Call>, dev: u32, rw: char, op: nat) {
    var k, ds := HistKey(dev, op), Latencies(cs, dev, rw, op);
    (k in hists <==> ds != []) && (k in hists ==> hists[k] == SlotCounts(ds))
  }

  // ---- What the handlers do ----

  function EventOf(hists: map<HistKey, Slots>, c: Call): Event<BlockReq> {
    match c
    case Issue(dev, sector, rw, now) => BlockIssue(dev, sector, rw, now)
    case Complete(dev, sector, rw, now, installs) =>
      BlockComplete(dev, sector, rw, now, Found(hists, BlockHist(dev, rw), installs))
    case LoseRequest(dev, sector) => EvictStart(BlockReq(dev, sector))
    case LoseHistogram(dev, op) => EvictHist(HistKey(dev, op))
  }

  function Events(cs: seq<Call>): (t: seq<Event<BlockReq>>)
    ensures |t| == |cs|
  {
    if cs == [] then []
    else
      var t := Events(cs[..|cs| - 1]);
      t + [EventOf(Run(t).hists, cs[|cs| - 1])]
  }

  lemma {:induction false} EventsPrefix(cs: seq<Call>, j: nat)
    requires j <= |cs|
    ensures Events(cs)[..j] == Events(cs[..j])
  {
    if j < |cs| {
      var init := cs[..|cs| - 1];
      EventsPrefix(init, j);
      assert init[..j] == cs[..j];
      assert Events(cs)[..j] == Events(init)[..j];
    } else {
      assert cs[..j] == cs;
    }
  }

  lemma EventsAt(cs: seq<Call>, i: nat)
    requires i < |cs|
    ensures Events(cs)[i] == EventOf(Run(Events(cs[..i])).hists, cs[i])
  {
    EventsPrefix(cs, i + 1);
    assert cs[..i + 1][..i] == cs[..i];
    assert Events(cs)[i] == Events(cs)[..i + 1][i];
  }

  lemma Touched(hists: map<HistKey, Slots>, c: Call, dev: u32, sector: u64)
    ensures Touches(EventOf(hists, c), BlockReq(dev, sector)) <==> About(c, dev, sector)
    ensures EventOf(hists, c).Start? && About(c, dev, sector) <==> c.Issue? && About(c, dev, sector)
    ensures c.Issue? && About(c, dev, sector) ==> EventOf(hists, c).now == c.now
  {
  }

  lemma PendingIsIssued(cs: seq<Call>, i: nat, dev: u32, sector: u64)
    ensures PendingSince(Events(cs), i, BlockReq(dev, sector)) <==> IssuedAt(cs, i, dev, sector)
    ensures IssuedAt(cs, i, dev, sector) ==> Events(cs)[i].now == cs[i].now
  {
    forall m: nat | m < |cs|
      ensures Touches(Events(cs)[m], BlockReq(dev, sector)) <==> About(cs[m], dev, sector)
      ensures Events(cs)[m].Start? && About(cs[m], dev, sector) <==> cs[m].Issue? && About(cs[m], dev, sector)
      ensures cs[m].Issue? && About(cs[m], dev, sector) ==> Events(cs)[m].now == cs[m].now
    {
      EventsAt(cs, m);
      Touched(Run(Events(cs[..m])).hists, cs[m], dev, sector);
    }
  }

  lemma MatchesIsMeasured(cs: seq<Call>, i: nat, j: nat)
    requires j < |cs| && cs[j].Complete?
    ensures Matches(Events(cs), i, j) <==> MeasuredFrom(cs, i, j)
    ensures MeasuredFrom(cs, i, j) ==> Events(cs)[i].now == cs[i].now
  {
    EventsAt(cs, j);
    EventsPrefix(cs, j);
    PendingIsIssued(cs[..j], i, cs[j].dev, cs[j].sector);
    assert i < j ==> Events(cs)[i] == Events(cs)[..j][i] && cs[i] == cs[..j][i];
  }

  lemma CompletesNow(cs: seq<Call>, j: nat)
    requires j < |cs| && cs[j].Complete?
    ensures Events(cs)[j].Finish? && Events(cs)[j].now == cs[j].now
  {
    EventsAt(cs, j);
  }

  lemma MatchedAs(cs: seq<Call>, i: nat, j: nat, ns: nat)
    requires j < |cs| && cs[j].Complete?
    ensures ns < TWO_63 && MeasuredAs(cs, i, j, ns) <==>
      Matches(Events(cs), i, j) && SignedDelta(Events(cs)[j].now, Events(cs)[i].now) == ns
  {
    MatchesIsMeasured(cs, i, j);
    CompletesNow(cs, j);
    if MeasuredFrom(cs, i, j) { Elapsed(cs[i].now, cs[j].now, ns); }
  }

  lemma HistOf(hists: map<HistKey, Slots>, c: Call, dev: u32, rw: char, op: nat)
    requires c.Complete? && IsOp(rw, op)
    ensures EventOf(hists, c).hist == Some(HistKey(dev, op)) <==>
      c.dev == dev && c.rw == rw && (HistKey(dev, op) in hists || c.installs)
  {
  }

  lemma MeasuredIsMatched(cs: seq<Call>, j: nat, ns: nat)
    requires j < |cs| && cs[j].Complete?
    ensures ns < TWO_63 && (exists i: nat :: MeasuredAs(cs, i, j, ns)) <==>
      exists i: nat :: Matches(Events(cs), i, j) && SignedDelta(Events(cs)[j].now, Events(cs)[i].now) == ns
  {
    if i: nat :| ns < TWO_63 && MeasuredAs(cs, i, j, ns) { MatchedAs(cs, i, j, ns); }
    if i: nat :| Matches(Events(cs), i, j) && SignedDelta(Events(cs)[j].now, Events(cs)[i].now) == ns {
      MatchedAs(cs, i, j, ns);
    }
  }

  /** The key the last call of cs is sampled under, if it is a completion. */
  lemma HistAt(cs: seq<Call>, dev: u32, rw: char, op: nat)
    requires cs != [] && IsOp(rw, op)
    ensures var j, k := |cs| - 1, HistKey(dev, op);
      && (Events(cs)[j].Finish? <==> cs[j].Complete?)
      && (cs[j].Complete? ==> (Events(cs)[j].hist == Some(k) <==>
           cs[j].dev == dev && cs[j].rw == rw && (Recorded(Events(cs[..j]), k) != [] || cs[j].installs)))
  {
    var j := |cs| - 1;
    EventsAt(cs, j);
    HistogramIsRecorded(Events(cs[..j]), HistKey(dev, op));
    if cs[j].Complete? { HistOf(Run(Events(cs[..j])).hists, cs[j], dev, rw, op); }
  }

  /** The last call of cs is sampled for an operation exactly when it takes that long and a histogram is found. */
  lemma SampledIsTaken(cs: seq<Call>, dev: u32, rw: char, op: nat, ns: nat)
    requires cs != [] && IsOp(rw, op)
    ensures var j, k := |cs| - 1, HistKey(dev, op);
      Sampled(Events(cs), j, k, ns) <==>
        Takes(cs, j, dev, rw, ns) && (Recorded(Events(cs[..j]), k) != [] || cs[j].installs)
  {
    var j := |cs| - 1;
    HistAt(cs, dev, rw, op);
    if cs[j].Complete? { MeasuredIsMatched(cs, j, ns); }
  }

  lemma SampleIsTime(cs: seq<Call>, dev: u32, rw: char, op: nat)
    requires cs != [] && IsOp(rw, op)
    ensures var j := |cs| - 1;
      SampleAt(Events(cs), j, HistKey(dev, op)) ==
        if TimeOf(cs, j, dev, rw).Some? && (Recorded(Events(cs[..j]), HistKey(dev, op)) != [] || cs[j].installs)
        then TimeOf(cs, j, dev, rw) else None
  {
    var j, t, k := |cs| - 1, Events(cs), HistKey(dev, op);
    var sample, time := SampleAt(t, j, k), TimeOf(cs, j, dev, rw);
    if sample.Some? {
      SampledIsTaken(cs, dev, rw, op, sample.value);
      assert Takes(cs, j, dev, rw, sample.value);
    }
    if time.Some? { SampledIsTaken(cs, dev, rw, op, time.value); }
    if sample.Some? && time.Some? { SampleIsUnique(t, k, sample.value, time.value); }
  }

  lemma LostIsLost(cs: seq<Call>, dev: u32, op: nat)
    requires cs != []
    ensures Events(cs)[|cs| - 1] == EvictHist(HistKey(dev, op)) <==> cs[|cs| - 1] == LoseHistogram(dev, op)
  {
    EventsAt(cs, |cs| - 1);
  }

  /** The latencies a block trace records are those of its calls. */
  lemma {:induction false} RecordedIsLatencies(cs: seq<Call>, dev: u32, rw: char, op: nat)
    requires IsOp(rw, op)
    ensures Recorded(Events(cs), HistKey(dev, op)) == Latencies(cs, dev, rw, op)
  {
    if cs != [] {
      var j := |cs| - 1;
      RecordedIsLatencies(cs[..j], dev, rw, op);
      EventsPrefix(cs, j);
      LostIsLost(cs, dev, op);
      SampleIsTime(cs, dev, rw, op);
    }
  }

  lemma {:induction false} EventsAreBlockEvents(cs: seq<Call>)
    ensures IsBlockTrace(Events(cs))
  {
    if cs != [] { EventsAreBlockEvents(cs[..|cs| - 1]); }
  }

  lemma {:induction false} KeysAreOps(t: seq<Event<BlockReq>>)
    requires IsBlockTrace(t)
    ensures forall k :: k in Run(t).hists ==> k.op <= 3
  {
    if t != [] {
      KeysAreOps(t[..|t| - 1]);
      assert IsBlockEvent(t[|t| - 1]);
    }
  }

  lemma EventsCount(cs: seq<Call>)
    ensures Counts(Run(Events(cs)).hists, cs)
  {
    EventsAreBlockEvents(cs);
    KeysAreOps(Events(cs));
    forall dev, rw, op | IsOp(rw, op) ensures CountsOp(Run(Events(cs)).hists, cs, dev, rw, op) {
      RecordedIsLatencies(cs, dev, rw, op);
      HistogramIsRecorded(Events(cs), HistKey(dev, op));
    }
  }

  method Handle(p: Probe<BlockReq>, c: Call)
    modifies p
    ensures p.State() == Step(old(p.State()), EventOf(old(p.hists), c))
  {
    match c {
      case Issue(dev, sector, rw, now) => OnBlockIssue(p, dev, sector, rw, now);
      case Complete(dev, sector, rw, now, installs) => OnBlockComplete(p, dev, sector, rw, now, installs);
      case LoseRequest(dev, sector) => p.start := p.start - {BlockReq(dev, sector)};
      case LoseHistogram(dev, op) => p.hists := p.hists - {HistKey(dev, op)};
    }
  }

  /** After any calls of the handlers and any evictions, the histogram of a device and an operation counts the
      latencies of exactly the completions of that operation on that device: each measured from the latest call
      about the same sector of the same device, if that is an issue. */
  method Replay(cs: seq<Call>) returns (p: Probe<BlockReq>)
    ensures fresh(p) && Counts(p.hists, cs)
  {
    p := new Probe<BlockReq>();
    for n := 0 to |cs|
      invariant fresh(p) && p.State() == Run(Events(cs[..n]))
    {
      assert cs[..n + 1][..n] == cs[..n];
      Handle(p, cs[n]);
    }
    assert cs[..|cs|] == cs;
    EventsCount(cs);
  }
}

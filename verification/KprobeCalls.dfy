/** bpf/nfs_kprobe_latency.c: entry probes that keep one pending start per thread, and one return probe
    shared by all functions. What it records of calls that nest, threads interleaving freely. */
module KprobeCalls {
  import opened Bits
  import opened LatencyMaps
  import opened Seqs

  /** The kernel functions with an entry probe. */
  datatype Function = FileRead | FileWrite | FileOpen | File4Open | Getattr

  /** The operation each entry probe records. */
  function OpOf(fn: Function): nat {
    match fn
    case FileRead => 0
    case FileWrite => 1
    case FileOpen => 2
    case File4Open => 2
    case Getattr => 3
  }

  datatype StartVal = StartVal(ts: u64, dev: u32, op: nat)

  /** What a probe does to the thread's pending start. */
  datatype Probed = Enter(start: StartVal) | Return(now: u64)

  datatype ProbeEvent = ProbeEvent(tid: u64, what: Probed)

  datatype Sample = Sample(hk: HistKey, ns: nat)

  datatype KprobeState = KprobeState(start: map<u64, StartVal>, hists: map<HistKey, Slots>)

  function SampleOf(start: StartVal, now: u64): Option<Sample> {
    var delta := SignedDelta(now, start.ts);
    if delta < 0 then None else Some(Sample(HistKey(start.dev, start.op), delta))
  }

  function ProbeStep(m: KprobeState, e: ProbeEvent): KprobeState {
    match e.what
    case Enter(s) => m.(start := m.start[e.tid := s])
    case Return(now) =>
      if e.tid !in m.start then m else
      var m' := m.(start := m.start - {e.tid});
      match SampleOf(m.start[e.tid], now)
      case None => m'
      case Some(s) => m'.(hists := AddSample(m.hists, s.hk, Micros(s.ns)))
  }

  function ProbeRun(t: seq<ProbeEvent>): KprobeState {
    if t == [] then KprobeState(map[], map[]) else ProbeStep(ProbeRun(t[..|t| - 1]), t[|t| - 1])
  }

  class KprobeMaps {
    var start: map<u64, StartVal>
    var hists: map<HistKey, Slots>

    function State(): KprobeState
      reads this
    {
      KprobeState(start, hists)
    }

    constructor ()
      ensures State() == ProbeRun([])
    {
      start, hists := map[], map[];
    }

    method RecordStart(tid: u64, dev: u32, op: nat, now: u64)
      modifies this
      ensures State() == ProbeStep(old(State()), ProbeEvent(tid, Enter(StartVal(now, dev, op))))
    {
      start := start[tid := StartVal(now, dev, op)];
    }

    /** The entry handlers, one for each function. */
    method OnEntry(fn: Function, tid: u64, dev: u32, now: u64)
      modifies this
      ensures State() == ProbeStep(old(State()), ProbeEvent(tid, Enter(StartVal(now, dev, OpOf(fn)))))
    {
      match fn {
        case FileRead => RecordStart(tid, dev, 0, now);
        case FileWrite => RecordStart(tid, dev, 1, now);
        case FileOpen => RecordStart(tid, dev, 2, now);
        case File4Open => RecordStart(tid, dev, 2, now);
        case Getattr => RecordStart(tid, dev, 3, now);
      }
    }

    /** The shared return handler. `installs` says whether a missing histogram is found after it has been
        installed; if not, the pending start is consumed and nothing is recorded. */
    method OnReturn(tid: u64, now: u64, installs: bool)
      modifies this
      ensures State() ==
        if tid in old(start) && !installs && HistKey(old(start)[tid].dev, old(start)[tid].op) !in old(hists)
        then old(State()).(start := old(start) - {tid})
        else ProbeStep(old(State()), ProbeEvent(tid, Return(now)))
    {
      if tid !in start {
        return;
      }
      var s := start[tid];
      var delta := SignedDelta(now, s.ts);
      var hk := HistKey(s.dev, s.op);
      start := start - {tid};
      if delta < 0 {
        return;
      }
      delta := delta / 1000;
      if delta == 0 {
        delta := 1;
      }
      if hk !in hists {
        if !installs {
          return;
        }
        hists := hists[hk := ZERO_HIST];
      }
      var slot := ClampedLog(delta);
      hists := hists[hk := Bump(hists[hk], slot)];
    }
  }

  // ---- One thread at a time ----

  /** A thread's own view: its pending start, and the samples its returns have produced. */
  datatype Thread = Thread(pending: Option<StartVal>, samples: seq<Sample>)

  /** The sample that this probe hit produces in a thread with this pending start. */
  function Emitted(pending: Option<StartVal>, p: Probed): Option<Sample> {
    if p.Return? && pending.Some? then SampleOf(pending.value, p.now) else None
  }

  function ThreadStep(th: Thread, p: Probed): Thread {
    Thread(if p.Enter? then Some(p.start) else None,
           match Emitted(th.pending, p) case None => th.samples case Some(s) => th.samples + [s])
  }

  function ThreadRun(th: Thread, ps: seq<Probed>): Thread {
    if ps == [] then th else ThreadStep(ThreadRun(th, ps[..|ps| - 1]), ps[|ps| - 1])
  }

  const FRESH: Thread := Thread(None, [])

  function Project(t: seq<ProbeEvent>, tid: u64): seq<Probed> {
    if t == [] then []
    else
      var p, e := Project(t[..|t| - 1], tid), t[|t| - 1];
      if e.tid == tid then p + [e.what] else p
  }

  /** The samples of the whole machine in the order they are added, each produced by the thread that
      returned, from that thread's own probes alone. */
  function Produced(t: seq<ProbeEvent>): seq<(u64, Sample)> {
    if t == [] then []
    else
      var p, e := t[..|t| - 1], t[|t| - 1];
      match Emitted(ThreadRun(FRESH, Project(p, e.tid)).pending, e.what)
      case None => Produced(p)
      case Some(s) => Produced(p) + [(e.tid, s)]
  }

  function OfThread(ss: seq<(u64, Sample)>, tid: u64): seq<Sample> {
    if ss == [] then []
    else
      var p, s := OfThread(ss[..|ss| - 1], tid), ss[|ss| - 1];
      if s.0 == tid then p + [s.1] else p
  }

  function OfKey(ss: seq<(u64, Sample)>, hk: HistKey): seq<nat> {
    if ss == [] then []
    else
      var p, s := OfKey(ss[..|ss| - 1], hk), ss[|ss| - 1];
      if s.1.hk == hk then p + [s.1.ns] else p
  }

  lemma ThreadRunSnoc(th: Thread, ps: seq<Probed>, p: Probed)
    ensures ThreadRun(th, ps + [p]) == ThreadStep(ThreadRun(th, ps), p)
  {
    assert (ps + [p])[..|ps|] == ps;
  }

  lemma {:induction false} ThreadRunConcat(th: Thread, a: seq<Probed>, b: seq<Probed>)
    ensures ThreadRun(th, a + b) == ThreadRun(ThreadRun(th, a), b)
  {
    if b == [] {
      assert a + b == a;
    } else {
      var p, last := b[..|b| - 1], b[|b| - 1];
      assert a + b == (a + p) + [last];
      ThreadRunConcat(th, a, p);
      ThreadRunSnoc(th, a + p, last);
    }
  }

  lemma OfThreadSnoc(ss: seq<(u64, Sample)>, s: (u64, Sample), tid: u64)
    ensures OfThread(ss + [s], tid) == if s.0 == tid then OfThread(ss, tid) + [s.1] else OfThread(ss, tid)
  {
    assert (ss + [s])[..|ss|] == ss;
  }

  lemma OfKeySnoc(ss: seq<(u64, Sample)>, s: (u64, Sample), hk: HistKey)
    ensures OfKey(ss + [s], hk) == if s.1.hk == hk then OfKey(ss, hk) + [s.1.ns] else OfKey(ss, hk)
  {
    assert (ss + [s])[..|ss|] == ss;
  }

  /** The machine's pending start for a thread is that thread's own, whatever the others do. */
  lemma {:induction false} PendingIsOwn(t: seq<ProbeEvent>, tid: u64)
    ensures var th := ThreadRun(FRESH, Project(t, tid));
      && (tid in ProbeRun(t).start <==> th.pending.Some?)
      && (tid in ProbeRun(t).start ==> ProbeRun(t).start[tid] == th.pending.value)
  {
    if t != [] {
      var p, e := t[..|t| - 1], t[|t| - 1];
      PendingIsOwn(p, tid);
      if e.tid == tid { ThreadRunSnoc(FRESH, Project(p, tid), e.what); }
    }
  }

  /** The samples produced by a thread's returns are those of its own run, whatever the others do. */
  lemma {:induction false} ThreadsAreIndependent(t: seq<ProbeEvent>, tid: u64)
    ensures OfThread(Produced(t), tid) == ThreadRun(FRESH, Project(t, tid)).samples
  {
    if t != [] {
      var p, e := t[..|t| - 1], t[|t| - 1];
      ThreadsAreIndependent(p, tid);
      if e.tid == tid { ThreadRunSnoc(FRESH, Project(p, tid), e.what); }
      match Emitted(ThreadRun(FRESH, Project(p, e.tid)).pending, e.what)
      case None =>
      case Some(s) => OfThreadSnoc(Produced(p), (e.tid, s), tid);
    }
  }

  lemma StepAddsEmitted(m: KprobeState, e: ProbeEvent, pending: Option<StartVal>)
    requires e.tid in m.start <==> pending.Some?
    requires e.tid in m.start ==> m.start[e.tid] == pending.value
    ensures ProbeStep(m, e).hists ==
      match Emitted(pending, e.what) case None => m.hists case Some(s) => AddSample(m.hists, s.hk, Micros(s.ns))
  {
  }

  /** Each histogram counts exactly the samples the threads produced for its key. */
  lemma {:induction false} HistogramsCountProduced(t: seq<ProbeEvent>, hk: HistKey)
    ensures hk in ProbeRun(t).hists <==> OfKey(Produced(t), hk) != []
    ensures hk in ProbeRun(t).hists ==> ProbeRun(t).hists[hk] == SlotCounts(OfKey(Produced(t), hk))
  {
    if t != [] {
      var p, e := t[..|t| - 1], t[|t| - 1];
      HistogramsCountProduced(p, hk);
      PendingIsOwn(p, e.tid);
      var pending := ThreadRun(FRESH, Project(p, e.tid)).pending;
      StepAddsEmitted(ProbeRun(p), e, pending);
      assert SlotCounts([]) == ZERO_HIST;
      match Emitted(pending, e.what)
      case None =>
      case Some(s) =>
        OfKeySnoc(Produced(p), (e.tid, s), hk);
        SlotCountsSnoc(OfKey(Produced(p), hk), s.ns);
    }
  }

  // ---- Calls that nest ----

  /** A run of sibling calls of one thread: the first one with the calls it makes, then the rest. */
  datatype Calls =
    | NoCalls
    | Call(fn: Function, dev: u32, entered: u64, inner: Calls, left: u64, next: Calls)

  function StartOf(c: Calls): StartVal
    requires c.Call?
  {
    StartVal(c.entered, c.dev, OpOf(c.fn))
  }

  /** The probe hits of these calls, in program order. */
  function Hits(c: Calls): seq<Probed>
    decreases c, 1
  {
    if c.NoCalls? then [] else FirstHits(c) + Hits(c.next)
  }

  function FirstHits(c: Calls): seq<Probed>
    requires c.Call?
    decreases c, 0
  {
    [Enter(StartOf(c))] + Hits(c.inner) + [Return(c.left)]
  }

  /** No call lasts 2^63 ns or more, and clocks do not run backwards within one. */
  ghost predicate WellTimed(c: Calls) {
    c.Call? ==> c.entered <= c.left < c.entered + TWO_63 && WellTimed(c.inner) && WellTimed(c.next)
  }

  /** Calls that make no probed call themselves, each with its own device, operation and duration. */
  function Leaves(c: Calls): seq<Sample>
    decreases c, 1
  {
    if c.NoCalls? then [] else FirstLeaves(c) + Leaves(c.next)
  }

  function FirstLeaves(c: Calls): seq<Sample>
    requires c.Call?
    decreases c, 0
  {
    if c.inner.Call? then Leaves(c.inner) else if c.left >= c.entered then [OwnSample(c)] else []
  }

  function OwnSample(c: Calls): Sample
    requires c.Call? && c.left >= c.entered
  {
    Sample(HistKey(c.dev, OpOf(c.fn)), c.left - c.entered)
  }

  lemma CallSteps(th: Thread, enter: Probed, inner: seq<Probed>, exit: Probed)
    ensures ThreadRun(th, [enter] + inner + [exit]) == ThreadStep(ThreadRun(ThreadStep(th, enter), inner), exit)
  {
    ThreadRunSnoc(th, [], enter);
    assert [] + [enter] == [enter];
    ThreadRunConcat(th, [enter], inner);
    ThreadRunSnoc(th, [enter] + inner, exit);
  }

  lemma OwnSampleIsTaken(c: Calls)
    requires c.Call? && c.entered <= c.left < c.entered + TWO_63
    ensures SampleOf(StartOf(c), c.left) == Some(OwnSample(c))
  {
  }

  /** What the return of a call leaves: its own sample if its start is still pending, no pending start. */
  lemma ReturnSteps(c: Calls, mid: Thread)
    requires c.Call? && c.entered <= c.left < c.entered + TWO_63
    requires mid.pending.Some? ==> mid.pending.value == StartOf(c)
    ensures ThreadStep(mid, Return(c.left)) ==
      Thread(None, if mid.pending.Some? then mid.samples + [OwnSample(c)] else mid.samples)
  {
    OwnSampleIsTaken(c);
  }

  /** One call and the calls it makes, when those sample their leaves. */
  lemma OneCall(c: Calls, th: Thread)
    requires c.Call? && WellTimed(c)
    requires var begun := ThreadStep(th, Enter(StartOf(c)));
             ThreadRun(begun, Hits(c.inner)) ==
             Thread(if c.inner.NoCalls? then begun.pending else None, begun.samples + Leaves(c.inner))
    ensures ThreadRun(th, FirstHits(c)) == Thread(None, th.samples + FirstLeaves(c))
  {
    var begun := ThreadStep(th, Enter(StartOf(c)));
    CallSteps(th, Enter(StartOf(c)), Hits(c.inner), Return(c.left));
    ReturnSteps(c, ThreadRun(begun, Hits(c.inner)));
    assert c.inner.NoCalls? ==> th.samples + [] == th.samples;
  }

  lemma AppendAssoc<T>(a: seq<T>, b: seq<T>, c: seq<T>)
    ensures (a + b) + c == a + (b + c)
  {
  }

  /** A thread's samples are its leaf calls: an outer call's start is overwritten by the first call it
      makes and consumed when that one returns, so its own return finds nothing. */
  lemma {:induction false} NestedCallsSampleLeaves(c: Calls, th: Thread)
    requires WellTimed(c)
    ensures ThreadRun(th, Hits(c)) == Thread(if c.NoCalls? then th.pending else None, th.samples + Leaves(c))
  {
    if c.Call? {
      var begun := ThreadStep(th, Enter(StartOf(c)));
      NestedCallsSampleLeaves(c.inner, begun);
      OneCall(c, th);
      NestedCallsSampleLeaves(c.next, Thread(None, th.samples + FirstLeaves(c)));
      ThreadRunConcat(th, FirstHits(c), Hits(c.next));
      AppendAssoc(th.samples, FirstLeaves(c), Leaves(c.next));
    }
  }

  /** For every interleaving of threads whose probes nest, each thread contributes its leaf calls, in
      order, and nothing is pending for it afterwards. */
  lemma SamplesAreLeafCalls(t: seq<ProbeEvent>, tid: u64, c: Calls)
    requires Project(t, tid) == Hits(c) && WellTimed(c)
    ensures OfThread(Produced(t), tid) == Leaves(c)
    ensures tid !in ProbeRun(t).start
  {
    PendingIsOwn(t, tid);
    ThreadsAreIndependent(t, tid);
    NestedCallsSampleLeaves(c, FRESH);
  }

  ghost predicate HasInner(c: Calls) {
    c.Call? && (c.inner.Call? || HasInner(c.next))
  }

  function CountCalls(c: Calls): nat {
    match c
    case NoCalls => 0
    case Call(_, _, _, inner, _, next) => 1 + CountCalls(inner) + CountCalls(next)
  }

  /** Every call is sampled exactly when no probed call makes another probed call. */
  lemma {:induction false} AllCallsSampledIffFlat(c: Calls)
    requires WellTimed(c)
    ensures |Leaves(c)| <= CountCalls(c)
    ensures |Leaves(c)| == CountCalls(c) <==> !HasInner(c)
  {
    if c.Call? {
      AllCallsSampledIffFlat(c.inner);
      AllCallsSampledIffFlat(c.next);
    }
  }

  // ---- All threads together ----

  /** The durations among samples of one thread that are for a key. */
  function Durations(ss: seq<Sample>, hk: HistKey): seq<nat> {
    if ss == [] then []
    else
      var p, s := Durations(ss[..|ss| - 1], hk), ss[|ss| - 1];
      if s.hk == hk then p + [s.ns] else p
  }

  /** The samples for a key, thread by thread. */
  function ByThread(ss: seq<(u64, Sample)>, tids: seq<u64>, hk: HistKey): seq<nat> {
    if tids == [] then []
    else ByThread(ss, tids[..|tids| - 1], hk) + Durations(OfThread(ss, tids[|tids| - 1]), hk)
  }

  lemma DurationsSnoc(ss: seq<Sample>, s: Sample, hk: HistKey)
    ensures Durations(ss + [s], hk) == if s.hk == hk then Durations(ss, hk) + [s.ns] else Durations(ss, hk)
  {
    assert (ss + [s])[..|ss|] == ss;
  }

  function Gain(gains: bool, ns: nat): multiset<nat> { if gains then multiset{ns} else multiset{} }

  /** What one sample of the whole machine adds to the list of one thread. */
  lemma OneThreadGains(ss: seq<(u64, Sample)>, s: (u64, Sample), tid: u64, hk: HistKey)
    ensures multiset(Durations(OfThread(ss + [s], tid), hk)) ==
      multiset(Durations(OfThread(ss, tid), hk)) + Gain(s.0 == tid && s.1.hk == hk, s.1.ns)
  {
    OfThreadSnoc(ss, s, tid);
    DurationsSnoc(OfThread(ss, tid), s.1, hk);
  }

  lemma GainsAdd(a: seq<nat>, b: seq<nat>, a': seq<nat>, b': seq<nat>, g: multiset<nat>, h: multiset<nat>)
    requires multiset(a') == multiset(a) + g && multiset(b') == multiset(b) + h
    ensures multiset(a' + b') == multiset(a + b) + (g + h)
  {
  }

  lemma GainSplits(tids: seq<u64>, tid: u64, gains: bool, ns: nat)
    requires tids != [] && AllDistinct(tids)
    ensures var init, last := tids[..|tids| - 1], tids[|tids| - 1];
      && AllDistinct(init)
      && Gain(tid in tids && gains, ns) == Gain(tid in init && gains, ns) + Gain(tid == last && gains, ns)
  {
    var init, last := tids[..|tids| - 1], tids[|tids| - 1];
    assert tids == init + [last] && last !in init;
  }

  lemma {:induction false} ByThreadGains(ss: seq<(u64, Sample)>, s: (u64, Sample), tids: seq<u64>, hk: HistKey)
    requires AllDistinct(tids)
    ensures multiset(ByThread(ss + [s], tids, hk)) ==
      multiset(ByThread(ss, tids, hk)) + Gain(s.0 in tids && s.1.hk == hk, s.1.ns)
  {
    if tids != [] {
      var init, last, ss' := tids[..|tids| - 1], tids[|tids| - 1], ss + [s];
      GainSplits(tids, s.0, s.1.hk == hk, s.1.ns);
      ByThreadGains(ss, s, init, hk);
      OneThreadGains(ss, s, last, hk);
      GainsAdd(ByThread(ss, init, hk), Durations(OfThread(ss, last), hk),
               ByThread(ss', init, hk), Durations(OfThread(ss', last), hk),
               Gain(s.0 in init && s.1.hk == hk, s.1.ns), Gain(s.0 == last && s.1.hk == hk, s.1.ns));
    }
  }

  lemma {:induction false} NoneByThread(tids: seq<u64>, hk: HistKey)
    ensures ByThread([], tids, hk) == []
  {
    if tids != [] { NoneByThread(tids[..|tids| - 1], hk); }
  }

  /** Taken thread by thread, the samples for a key are the same ones, each as often. */
  lemma {:induction false} ThreadsPartition(ss: seq<(u64, Sample)>, tids: seq<u64>, hk: HistKey)
    requires AllDistinct(tids) && forall i :: 0 <= i < |ss| ==> ss[i].0 in tids
    ensures multiset(OfKey(ss, hk)) == multiset(ByThread(ss, tids, hk))
  {
    if ss == [] {
      NoneByThread(tids, hk);
    } else {
      var p, s := ss[..|ss| - 1], ss[|ss| - 1];
      assert ss == p + [s];
      ThreadsPartition(p, tids, hk);
      ByThreadGains(p, s, tids, hk);
      OfKeySnoc(p, s, hk);
    }
  }

  lemma {:induction false} ProducersAreThreads(t: seq<ProbeEvent>, tids: seq<u64>)
    requires forall e :: e in t ==> e.tid in tids
    ensures forall i :: 0 <= i < |Produced(t)| ==> Produced(t)[i].0 in tids
  {
    if t != [] {
      ProducersAreThreads(t[..|t| - 1], tids);
      assert t[|t| - 1] in t;
    }
  }

  /** An interleaving of these threads, each hitting the probes of its own nested calls. */
  ghost predicate Interleaves(t: seq<ProbeEvent>, tids: seq<u64>, calls: map<u64, Calls>) {
    && AllDistinct(tids) && (forall e :: e in t ==> e.tid in tids)
    && forall tid :: tid in tids ==> tid in calls && WellTimed(calls[tid]) && Project(t, tid) == Hits(calls[tid])
  }

  /** The leaves of a thread's calls sampled for a key, thread by thread. */
  function LeafDurations(tids: seq<u64>, calls: map<u64, Calls>, hk: HistKey): seq<nat>
    requires forall tid :: tid in tids ==> tid in calls
  {
    if tids == [] then []
    else LeafDurations(tids[..|tids| - 1], calls, hk) + Durations(Leaves(calls[tids[|tids| - 1]]), hk)
  }

  lemma {:induction false} ByThreadIsLeaves(
      t: seq<ProbeEvent>, tids: seq<u64>, calls: map<u64, Calls>, hk: HistKey)
    requires forall tid :: tid in tids ==> tid in calls && WellTimed(calls[tid]) && Project(t, tid) == Hits(calls[tid])
    ensures ByThread(Produced(t), tids, hk) == LeafDurations(tids, calls, hk)
  {
    if tids != [] {
      var init, last := tids[..|tids| - 1], tids[|tids| - 1];
      ByThreadIsLeaves(t, init, calls, hk);
      assert last in tids;
      SamplesAreLeafCalls(t, last, calls[last]);
    }
  }

  /** For every interleaving of threads whose probes nest, each histogram counts exactly the leaf calls made to
      its operation on its device. */
  lemma HistogramsCountLeafCalls(t: seq<ProbeEvent>, tids: seq<u64>, calls: map<u64, Calls>, hk: HistKey)
    requires Interleaves(t, tids, calls)
    ensures multiset(OfKey(Produced(t), hk)) == multiset(LeafDurations(tids, calls, hk))
    ensures hk in ProbeRun(t).hists <==> LeafDurations(tids, calls, hk) != []
    ensures hk in ProbeRun(t).hists ==> ProbeRun(t).hists[hk] == SlotCounts(OfKey(Produced(t), hk))
  {
    HistogramsCountProduced(t, hk);
    ProducersAreThreads(t, tids);
    ThreadsPartition(Produced(t), tids, hk);
    ByThreadIsLeaves(t, tids, calls, hk);
    assert |multiset(OfKey(Produced(t), hk))| == |OfKey(Produced(t), hk)|;
  }

  // ---- Said on the calls ----

  /** How long the calls to these functions took that were made on this device and made no probed call themselves. */
  function LeafTimes(c: Calls, dev: u32, fns: set<Function>): seq<nat> {
    match c
    case NoCalls => []
    case Call(fn, d, entered, inner, left, next) =>
      (if inner.Call? then LeafTimes(inner, dev, fns)
       else if d == dev && fn in fns && left >= entered then [left - entered] else []) + LeafTimes(next, dev, fns)
  }

  function AllLeafTimes(tids: seq<u64>, calls: map<u64, Calls>, dev: u32, fns: set<Function>): seq<nat>
    requires forall tid :: tid in tids ==> tid in calls
  {
    if tids == [] then []
    else AllLeafTimes(tids[..|tids| - 1], calls, dev, fns) + LeafTimes(calls[tids[|tids| - 1]], dev, fns)
  }

  /** The functions of an operation, by its index in the labels. */
  ghost predicate IsOp(fns: set<Function>, op: nat) {
    || (fns == {FileRead} && op == 0) || (fns == {FileWrite} && op == 1)
    || (fns == {FileOpen, File4Open} && op == 2) || (fns == {Getattr} && op == 3)
  }

  lemma FunctionOf(fns: set<Function>, op: nat, fn: Function)
    requires IsOp(fns, op)
    ensures OpOf(fn) == op <==> fn in fns
  {
  }

  lemma {:induction false} DurationsConcat(a: seq<Sample>, b: seq<Sample>, hk: HistKey)
    ensures Durations(a + b, hk) == Durations(a, hk) + Durations(b, hk)
  {
    if b == [] {
      assert a + b == a;
    } else {
      var init, last := b[..|b| - 1], b[|b| - 1];
      assert a + b == (a + init) + [last] && b == init + [last];
      DurationsConcat(a, init, hk);
      DurationsSnoc(a + init, last, hk);
      DurationsSnoc(init, last, hk);
    }
  }

  lemma OneDuration(s: Sample, hk: HistKey)
    ensures Durations([s], hk) == if s.hk == hk then [s.ns] else []
  {
    DurationsSnoc([], s, hk);
    assert [] + [s] == [s];
  }

  lemma {:induction false} LeavesAreTimed(c: Calls, dev: u32, fns: set<Function>, op: nat)
    requires IsOp(fns, op)
    ensures Durations(Leaves(c), HistKey(dev, op)) == LeafTimes(c, dev, fns)
  {
    if c.Call? {
      LeavesAreTimed(c.inner, dev, fns, op);
      LeavesAreTimed(c.next, dev, fns, op);
      DurationsConcat(FirstLeaves(c), Leaves(c.next), HistKey(dev, op));
      FunctionOf(fns, op, c.fn);
      if c.left >= c.entered { OneDuration(OwnSample(c), HistKey(dev, op)); }
    }
  }

  lemma {:induction false} AllLeavesAreTimed(
      tids: seq<u64>, calls: map<u64, Calls>, dev: u32, fns: set<Function>, op: nat)
    requires IsOp(fns, op) && forall tid :: tid in tids ==> tid in calls
    ensures LeafDurations(tids, calls, HistKey(dev, op)) == AllLeafTimes(tids, calls, dev, fns)
  {
    if tids != [] {
      var init, last := tids[..|tids| - 1], tids[|tids| - 1];
      AllLeavesAreTimed(init, calls, dev, fns, op);
      LeavesAreTimed(calls[last], dev, fns, op);
    }
  }

  // ---- Order does not matter ----

  function InSlot(slot: nat): nat -> bool { (ns: nat) => SlotOf(Micros(ns)) == slot }

  lemma {:induction false} SlotIsCounted(ds: seq<nat>, slot: nat)
    ensures CountSlot(ds, slot) == CountIf(ds, InSlot(slot))
  {
    if ds != [] { SlotIsCounted(ds[..|ds| - 1], slot); }
  }

  lemma SlotsPermuted(a: seq<nat>, b: seq<nat>)
    requires multiset(a) == multiset(b)
    ensures SlotCounts(a) == SlotCounts(b) && (a == [] <==> b == [])
  {
    forall i: nat | i < 26 ensures SlotCounts(a)[i] == SlotCounts(b)[i] {
      SlotIsCounted(a, i);
      SlotIsCounted(b, i);
      CountPermuted(a, b, InSlot(i));
    }
    assert |a| == |multiset(a)| == |b|;
  }

  /** The histograms that the leaf calls of the threads come to. */
  ghost predicate CountsOp(hists: map<HistKey, Slots>, tids: seq<u64>, calls: map<u64, Calls>, dev: u32,
                           fns: set<Function>, op: nat)
    requires forall tid :: tid in tids ==> tid in calls
  {
    var k, ds := HistKey(dev, op), AllLeafTimes(tids, calls, dev, fns);
    (k in hists <==> ds != []) && (k in hists ==> hists[k] == SlotCounts(ds))
  }

  ghost predicate Counts(hists: map<HistKey, Slots>, tids: seq<u64>, calls: map<u64, Calls>)
    requires forall tid :: tid in tids ==> tid in calls
  {
    forall dev, fns, op :: IsOp(fns, op) ==> CountsOp(hists, tids, calls, dev, fns, op)
  }

  /** For every interleaving of threads whose probes nest, the histogram of a device and an operation counts the
      durations of exactly the leaf calls made on that device to the functions of that operation. */
  lemma ProbesCountLeafCalls(t: seq<ProbeEvent>, tids: seq<u64>, calls: map<u64, Calls>)
    requires Interleaves(t, tids, calls)
    ensures Counts(ProbeRun(t).hists, tids, calls)
  {
    forall dev, fns, op | IsOp(fns, op) ensures CountsOp(ProbeRun(t).hists, tids, calls, dev, fns, op) {
      HistogramsCountLeafCalls(t, tids, calls, HistKey(dev, op));
      AllLeavesAreTimed(tids, calls, dev, fns, op);
      SlotsPermuted(OfKey(Produced(t), HistKey(dev, op)), AllLeafTimes(tids, calls, dev, fns));
    }
  }
}

/** What the exported histogram says about the latencies the kernel recorded: the slot rule of
    bpf/block_latency.c composed with the boundary rule of pkg/ebpf/histogram.go, over every trace. */
module EndToEnd {
  import opened Bits
  import opened Histogram
  import opened LatencyMaps
  import opened Seqs

  const NANO: real := 1000000000.0

  /** Largest microsecond value a signed 64-bit nanosecond delta can give. */
  const MAX_US: nat := (TWO_63 - 1) / 1000

  /** The sample's latency, as recorded, is at most b seconds: the documented meaning of a bucket. */
  function AtMost(b: real): nat -> bool {
    (ns: nat) => Micros(ns) as real / MICRO <= b
  }

  function Below(b: real): nat -> bool {
    (ns: nat) => ns as real / NANO < b
  }

  /** What the exporter counts instead: the sample's slot has its ceiling within b. */
  function Counted(b: real): nat -> bool {
    (ns: nat) => SlotCeiling(SlotOf(Micros(ns))) <= b
  }

  /** No sample is long enough to be clamped to the top slot. */
  ghost predicate Unclamped(ds: seq<nat>) {
    forall ns :: ns in ds ==> Micros(ns) < Pow2(MAX_SLOTS)
  }

  function TotalUs(ds: seq<nat>): nat {
    if ds == [] then 0 else TotalUs(ds[..|ds| - 1]) + Micros(ds[|ds| - 1])
  }

  // ---- Slots back to samples ----

  lemma {:induction false} BumpWithin(slots: Slots, slot: nat, b: real, n: nat)
    requires slot < MAX_SLOTS && n <= MAX_SLOTS && slots[slot] + 1 < TWO_64
    ensures TotalWithin(Bump(slots, slot), b, n)
         == TotalWithin(slots, b, n) + (if slot < n && SlotCeiling(slot) <= b then 1 else 0)
  {
    if n > 0 { BumpWithin(slots, slot, b, n - 1); }
  }

  lemma OneMore(c: nat, i: nat)
    ensures Contribution(c + 1, i) == Contribution(c, i) + MidpointUs(i) / MICRO
  {
    var w := MidpointUs(i) / MICRO;
    assert (c as real + 1.0) * w == c as real * w + w;
  }

  lemma {:induction false} BumpSum(slots: Slots, slot: nat, n: nat)
    requires slot < MAX_SLOTS && n <= MAX_SLOTS && slots[slot] + 1 < TWO_64
    ensures EstimatedSum(Bump(slots, slot), n)
         == EstimatedSum(slots, n) + (if slot < n then MidpointUs(slot) / MICRO else 0.0)
  {
    if n > 0 {
      BumpSum(slots, slot, n - 1);
      if slot == n - 1 {
        OneMore(slots[slot], slot);
        assert Bump(slots, slot)[n - 1] == slots[slot] + 1;
      } else {
        assert Bump(slots, slot)[n - 1] == slots[n - 1];
      }
    }
  }

  lemma {:induction false} EmptySlots(slots: Slots, b: real, n: nat)
    requires n <= MAX_SLOTS && forall i :: 0 <= i < |slots| ==> slots[i] == 0
    ensures TotalWithin(slots, b, n) == 0 && EstimatedSum(slots, n) == 0.0
  {
    if n > 0 {
      EmptySlots(slots, b, n - 1);
      NoContribution(n - 1);
    }
  }

  lemma NoContribution(i: nat)
    ensures Contribution(0, i) == 0.0
  {
  }

  lemma NoSamples(ds: seq<nat>, b: real)
    requires ds == []
    ensures BucketTotal(SlotCounts(ds), b) == 0 && SumSeconds(SlotCounts(ds)) == 0.0
  {
    var slots := SlotCounts(ds);
    assert forall i :: 0 <= i < |slots| ==> slots[i] == 0;
    EmptySlots(slots, b, |slots|);
  }

  lemma BucketSnoc(ds: seq<nat>, ns: nat, b: real)
    requires |ds| + 1 < TWO_64
    ensures BucketTotal(SlotCounts(ds + [ns]), b) == BucketTotal(SlotCounts(ds), b) + (if Counted(b)(ns) then 1 else 0)
  {
    var s, slot := SlotCounts(ds), SlotOf(Micros(ns));
    SlotCountsSnoc(ds, ns);
    assert s[slot] == CountSlot(ds, slot) % TWO_64 <= |ds|;
    BumpWithin(s, slot, b, |s|);
  }

  /** The exported bucket for b counts the samples whose slot ceiling is within b. */
  lemma {:induction false} BucketIsCounted(ds: seq<nat>, b: real)
    requires |ds| < TWO_64
    ensures BucketTotal(SlotCounts(ds), b) == CountIf(ds, Counted(b))
  {
    if ds == [] {
      NoSamples(ds, b);
    } else {
      var p, ns := ds[..|ds| - 1], ds[|ds| - 1];
      assert ds == p + [ns];
      BucketIsCounted(p, b);
      BucketSnoc(p, ns, b);
      CountIfSnoc(p, ns, Counted(b));
    }
  }

  lemma {:induction false} WithinAll(slots: Slots, b: real, n: nat)
    requires n <= MAX_SLOTS
    requires forall i :: 0 <= i < n ==> SlotCeiling(i) <= b
    ensures TotalWithin(slots, b, n) == PrefixTotal(slots, n)
  {
    if n > 0 { WithinAll(slots, b, n - 1); }
  }

  /** No sample is lost or counted twice between the kernel slots and the exported count. */
  lemma CountIsConserved(ds: seq<nat>)
    requires |ds| < TWO_64
    ensures SampleCount(SlotCounts(ds)) == |ds|
  {
    var b := SlotCeiling(MAX_SLOTS - 1);
    forall i: nat | i < MAX_SLOTS ensures SlotCeiling(i) <= b { CeilingsIncrease(i, MAX_SLOTS - 1); }
    WithinAll(SlotCounts(ds), b, |SlotCounts(ds)|);
    BucketIsCounted(ds, b);
    CountAll(ds, Counted(b));
  }

  // ---- One sample ----

  lemma MicrosBounds(ns: nat)
    ensures Micros(ns) >= 1 && ns < (Micros(ns) + 1) * 1000
  {
  }

  lemma SampleBounds(ns: nat, b: real)
    ensures AtMost(b)(ns) ==> Counted(b)(ns)
    ensures Counted(b)(ns) && b < SlotCeiling(MAX_SLOTS - 1) ==> Below(2.0 * b)(ns)
    ensures b >= SlotCeiling(MAX_SLOTS - 1) ==> Counted(b)(ns)
  {
    var us := Micros(ns);
    var slot := SlotOf(us);
    var l := FloorLog2(us);
    MicrosBounds(ns);
    CeilingsIncrease(slot, l);
    CeilingsIncrease(slot, MAX_SLOTS - 1);
    assert SlotCeiling(l) <= us as real / MICRO;
    if Counted(b)(ns) && b < SlotCeiling(MAX_SLOTS - 1) {
      assert slot == l;
      assert us + 1 <= 2 * Pow2(slot);
      assert ns < 2 * Pow2(slot) * 1000;
      assert ns as real / NANO < 2.0 * SlotCeiling(slot);
    }
  }

  // ---- Main results ----

  /** Two-sided reading of a bucket: it counts every sample at most b, and none that is 2b or more. */
  ghost predicate BucketWithin(bucket: nat, ds: seq<nat>, b: real) {
    && CountIf(ds, AtMost(b)) <= bucket <= |ds|
    && (b < SlotCeiling(MAX_SLOTS - 1) ==> bucket <= CountIf(ds, Below(2.0 * b)))
    && (b >= SlotCeiling(MAX_SLOTS - 1) ==> bucket == |ds|)
  }

  lemma BucketBounds(ds: seq<nat>, b: real)
    requires |ds| < TWO_64
    ensures BucketWithin(BucketTotal(SlotCounts(ds), b), ds, b)
  {
    BucketIsCounted(ds, b);
    forall ns: nat
      ensures AtMost(b)(ns) ==> Counted(b)(ns)
      ensures Counted(b)(ns) && b < SlotCeiling(MAX_SLOTS - 1) ==> Below(2.0 * b)(ns)
      ensures b >= SlotCeiling(MAX_SLOTS - 1) ==> Counted(b)(ns)
    {
      SampleBounds(ns, b);
    }
    CountIfMonotone(ds, AtMost(b), Counted(b));
    if b < SlotCeiling(MAX_SLOTS - 1) {
      CountIfMonotone(ds, Counted(b), Below(2.0 * b));
    } else {
      CountAll(ds, Counted(b));
    }
  }

  /** An exported bucket is within its bounds and the exported count exact, over every trace of handler calls and
      evictions. */
  lemma ExportedBucketBounds<K(!new)>(t: seq<Event<K>>, hk: HistKey, b: real)
    requires hk in Run(t).hists && |Recorded(t, hk)| < TWO_64
    ensures BucketWithin(BucketTotal(Run(t).hists[hk], b), Recorded(t, hk), b)
    ensures SampleCount(Run(t).hists[hk]) == |Recorded(t, hk)|
  {
    var ds := Recorded(t, hk);
    HistogramIsRecorded(t, hk);
    BucketBounds(ds, b);
    CountIsConserved(ds);
  }

  /** The latency itself, not the recorded microseconds, is at most b seconds. */
  function TrulyAtMost(b: real): nat -> bool {
    (ns: nat) => ns as real / NANO <= b
  }

  /** From one microsecond on, a bucket also counts every sample whose true latency is at most its boundary. */
  lemma TrueLatencyBound<K(!new)>(t: seq<Event<K>>, hk: HistKey, b: real)
    requires hk in Run(t).hists && |Recorded(t, hk)| < TWO_64 && b >= 1.0 / MICRO
    ensures CountIf(Recorded(t, hk), TrulyAtMost(b)) <= BucketTotal(Run(t).hists[hk], b)
  {
    forall ns | ns in Recorded(t, hk) && TrulyAtMost(b)(ns) ensures AtMost(b)(ns) {
      TrueIsRecorded(ns, b);
    }
    CountIfMonotone(Recorded(t, hk), TrulyAtMost(b), AtMost(b));
    ExportedBucketBounds(t, hk, b);
  }

  lemma TrueIsRecorded(ns: nat, b: real)
    requires b >= 1.0 / MICRO && ns as real / NANO <= b
    ensures Micros(ns) as real / MICRO <= b
  {
    if ns >= 1000 {
      assert (ns / 1000) as real * 1000.0 <= ns as real by {
        assert (ns / 1000) * 1000 <= ns;
        assert ((ns / 1000) * 1000) as real == (ns / 1000) as real * 1000.0;
      }
    }
  }

  /** Midpoint estimate of one sample against its recorded latency. */
  lemma MidpointBounds(us: nat)
    requires us >= 1
    ensures 2.0 * MidpointUs(SlotOf(us)) <= SQRT2 * us as real
    ensures us < Pow2(MAX_SLOTS) ==> SQRT2 * us as real <= 4.0 * MidpointUs(SlotOf(us))
  {
    var slot, l := SlotOf(us), FloorLog2(us);
    if slot < l { Pow2Monotone(slot, l); }
    if l > MAX_SLOTS { Pow2Monotone(MAX_SLOTS, l); }
    if slot > 0 {
      assert Pow2(slot) as real == 2.0 * Pow2(slot - 1) as real;
    }
  }

  lemma EstimateSnoc(ds: seq<nat>, ns: nat)
    requires |ds| + 1 < TWO_64
    ensures SumSeconds(SlotCounts(ds + [ns])) == SumSeconds(SlotCounts(ds)) + MidpointUs(SlotOf(Micros(ns))) / MICRO
  {
    var s, slot := SlotCounts(ds), SlotOf(Micros(ns));
    SlotCountsSnoc(ds, ns);
    assert s[slot] == CountSlot(ds, slot) % TWO_64 <= |ds|;
    BumpSum(s, slot, |s|);
  }

  lemma TotalSnoc(ds: seq<nat>, ns: nat)
    ensures TotalUs(ds + [ns]) == TotalUs(ds) + Micros(ns)
  {
    assert (ds + [ns])[..|ds|] == ds;
  }

  lemma AddToBothSides(sum: real, total: real, mid: real, us: real)
    ensures 2.0 * sum <= SQRT2 * (total / MICRO) && 2.0 * mid <= SQRT2 * us ==>
      2.0 * (sum + mid / MICRO) <= SQRT2 * ((total + us) / MICRO)
    ensures SQRT2 * (total / MICRO) <= 4.0 * sum && SQRT2 * us <= 4.0 * mid ==>
      SQRT2 * ((total + us) / MICRO) <= 4.0 * (sum + mid / MICRO)
  {
  }

  ghost predicate SumAtMost(ds: seq<nat>) {
    2.0 * SumSeconds(SlotCounts(ds)) <= SQRT2 * (TotalUs(ds) as real / MICRO)
  }

  ghost predicate SumAtLeast(ds: seq<nat>) {
    SQRT2 * (TotalUs(ds) as real / MICRO) <= 4.0 * SumSeconds(SlotCounts(ds))
  }

  lemma EstimateStep(ds: seq<nat>, ns: nat)
    requires |ds| + 1 < TWO_64
    ensures SumAtMost(ds) ==> SumAtMost(ds + [ns])
    ensures SumAtLeast(ds) && Micros(ns) < Pow2(MAX_SLOTS) ==> SumAtLeast(ds + [ns])
  {
    EstimateSnoc(ds, ns);
    TotalSnoc(ds, ns);
    MidpointBounds(Micros(ns));
    AddToBothSides(SumSeconds(SlotCounts(ds)), TotalUs(ds) as real, MidpointUs(SlotOf(Micros(ns))), Micros(ns) as real);
  }

  lemma {:induction false} EstimateBounds(ds: seq<nat>)
    requires |ds| < TWO_64
    ensures SumAtMost(ds) && (Unclamped(ds) ==> SumAtLeast(ds))
  {
    if ds == [] {
      NoSamples(ds, 0.0);
    } else {
      var p, ns := ds[..|ds| - 1], ds[|ds| - 1];
      assert ds == p + [ns];
      EstimateBounds(p);
      EstimateStep(p, ns);
      assert Unclamped(ds) ==> Unclamped(p) && ns in ds;
    }
  }

  ghost predicate SumWithin(sum: real, ds: seq<nat>) {
    && 2.0 * sum <= SQRT2 * (TotalUs(ds) as real / MICRO)
    && (Unclamped(ds) ==> SQRT2 * (TotalUs(ds) as real / MICRO) <= 4.0 * sum)
  }

  /** The exported sum against the true total of the recorded latencies, over every trace: within a
      factor of sqrt 2 above and 2 sqrt 2 below, the second while no sample was clamped to the top slot. */
  lemma ExportedSumBounds<K(!new)>(t: seq<Event<K>>, hk: HistKey)
    requires hk in Run(t).hists && |Recorded(t, hk)| < TWO_64
    ensures SumWithin(SumSeconds(Run(t).hists[hk]), Recorded(t, hk))
  {
    HistogramIsRecorded(t, hk);
    EstimateBounds(Recorded(t, hk));
  }

  // ---- Conservation over the whole map ----

  /** Completions that found a start, took no negative time and had a recognised operation. */
  ghost function Completions<K(!new)>(t: seq<Event<K>>): nat {
    if t == [] then 0
    else
      var j := |t| - 1;
      Completions(t[..j]) + (if t[j].Finish? && t[j].hist.Some? && SampleAt(t, j, t[j].hist.value).Some? then 1 else 0)
  }

  ghost predicate NoHistEviction<K(!new)>(t: seq<Event<K>>) { forall e :: e in t ==> !e.EvictHist? }

  ghost function TotalRecorded<K(!new)>(t: seq<Event<K>>, ks: seq<HistKey>): nat {
    if ks == [] then 0 else TotalRecorded(t, ks[..|ks| - 1]) + |Recorded(t, ks[|ks| - 1])|
  }

  lemma OneKeyGains<K(!new)>(t: seq<Event<K>>, hk: HistKey)
    requires t != [] && NoHistEviction(t)
    ensures var j := |t| - 1;
      |Recorded(t, hk)| == |Recorded(t[..j], hk)| +
        (if t[j].Finish? && t[j].hist == Some(hk) && SampleAt(t, j, hk).Some? then 1 else 0)
  {
    LastSample(t, hk);
    assert t[|t| - 1] in t;
  }

  /** The last event adds one sample to one key, or none. */
  lemma {:induction false} TotalGains<K(!new)>(t: seq<Event<K>>, ks: seq<HistKey>)
    requires t != [] && NoHistEviction(t) && AllDistinct(ks)
    ensures var j := |t| - 1;
      TotalRecorded(t, ks) == TotalRecorded(t[..j], ks) +
        (if t[j].Finish? && t[j].hist.Some? && t[j].hist.value in ks && SampleAt(t, j, t[j].hist.value).Some?
         then 1 else 0)
  {
    if ks != [] {
      var init, last := ks[..|ks| - 1], ks[|ks| - 1];
      TotalGains(t, init);
      OneKeyGains(t, last);
      assert ks == init + [last] && last !in init;
    }
  }

  lemma {:induction false} NothingRecordedYet<K(!new)>(ks: seq<HistKey>)
    ensures TotalRecorded<K>([], ks) == 0
  {
    if ks != [] { NothingRecordedYet<K>(ks[..|ks| - 1]); }
  }

  /** While no histogram is evicted, the samples of all keys together are the completions that count: none is
      lost and none counted twice, for any list of keys that covers the trace's. */
  lemma {:induction false} CompletionsAreConserved<K(!new)>(t: seq<Event<K>>, ks: seq<HistKey>)
    requires NoHistEviction(t) && AllDistinct(ks)
    requires forall e :: e in t && e.Finish? && e.hist.Some? ==> e.hist.value in ks
    ensures TotalRecorded(t, ks) == Completions(t)
  {
    if t == [] {
      NothingRecordedYet<K>(ks);
    } else {
      var j := |t| - 1;
      CompletionsAreConserved(t[..j], ks);
      TotalGains(t, ks);
      assert t[j] in t;
    }
  }

  ghost function TotalCount(hists: map<HistKey, Slots>, ks: seq<HistKey>): nat {
    if ks == [] then 0
    else TotalCount(hists, ks[..|ks| - 1]) + if ks[|ks| - 1] in hists then SampleCount(hists[ks[|ks| - 1]]) else 0
  }

  /** The slots of the whole map add up to the samples of its keys. */
  lemma {:induction false} SlotsAddUp<K(!new)>(t: seq<Event<K>>, ks: seq<HistKey>)
    requires forall k :: k in ks ==> |Recorded(t, k)| < TWO_64
    ensures TotalCount(Run(t).hists, ks) == TotalRecorded(t, ks)
  {
    if ks != [] {
      var last := ks[|ks| - 1];
      SlotsAddUp(t, ks[..|ks| - 1]);
      HistogramIsRecorded(t, last);
      CountIsConserved(Recorded(t, last));
    }
  }

  /** So, while no histogram is evicted, the slots of the whole map add up to the completions that count. */
  lemma SlotsCountCompletions<K(!new)>(t: seq<Event<K>>, ks: seq<HistKey>)
    requires NoHistEviction(t) && AllDistinct(ks) && forall k :: k in ks ==> |Recorded(t, k)| < TWO_64
    requires forall e :: e in t && e.Finish? && e.hist.Some? ==> e.hist.value in ks
    ensures TotalCount(Run(t).hists, ks) == Completions(t)
  {
    SlotsAddUp(t, ks);
    CompletionsAreConserved(t, ks);
  }

  // ---- When a bucket has exactly its documented meaning ----

  /** For every trace of the block handlers the bucket for b is the number of samples at most b. */
  ghost predicate ExactAt(b: real) {
    forall t: seq<Event<BlockReq>>, hk: HistKey ::
      IsBlockTrace(t) && hk in Run(t).hists && |Recorded(t, hk)| < TWO_64 ==>
        BucketTotal(Run(t).hists[hk], b) == CountIf(Recorded(t, hk), AtMost(b))
  }

  /** b lies below the first microsecond, just under a slot's end, or above every recordable latency. */
  ghost predicate ExactBoundary(b: real) {
    var us := (b * MICRO).Floor;
    us < 1 || us >= MAX_US || exists j: nat :: j < MAX_SLOTS && us + 1 == Pow2(j)
  }

  function OneRead(ns: u64): seq<Event<BlockReq>> {
    [BlockIssue(0, 0, 'R', 0), BlockComplete(0, 0, 'R', ns, true)]
  }

  lemma OneReadRecords(ns: u64)
    requires ns < TWO_63
    ensures IsBlockTrace(OneRead(ns))
    ensures Recorded(OneRead(ns), HistKey(0, 0)) == [ns]
  {
    var t, hk := OneRead(ns), HistKey(0, 0);
    assert t[..1] == [t[0]] && t[..1][..0] == [];
    assert Run(t[..1]) == Step(Run([]), t[0]);
    LastSample(t, hk);
    LastSample(t[..1], hk);
    assert Recorded(t[..1], hk) == [];
  }

  lemma {:induction false} RecordedBounded<K(!new)>(t: seq<Event<K>>, hk: HistKey)
    ensures forall ns :: ns in Recorded(t, hk) ==> ns < TWO_63
  {
    if t != [] { RecordedBounded(t[..|t| - 1], hk); }
  }

  /** At an exact boundary, "slot ceiling within b" and "at most b" agree on every recordable sample. */
  lemma ExactSample(b: real, ns: nat)
    requires ExactBoundary(b) && ns < TWO_63
    ensures Counted(b)(ns) <==> AtMost(b)(ns)
  {
    var x, us := (b * MICRO).Floor, Micros(ns);
    SampleBounds(ns, b);
    MicrosBounds(ns);
    assert AtMost(b)(ns) <==> us <= x;
    assert Counted(b)(ns) <==> Pow2(SlotOf(us)) <= x;
    if x >= MAX_US {
      assert us <= MAX_US;
    } else if x >= 1 {
      var j: nat :| j < MAX_SLOTS && x + 1 == Pow2(j);
      var slot, l := SlotOf(us), FloorLog2(us);
      if slot >= j {
        if slot > j { Pow2Monotone(j, slot); }
      } else {
        assert l == slot;
        if slot + 1 < j { Pow2Monotone(slot + 1, j); }
      }
    }
  }

  /** Away from an exact boundary, the next whole microsecond is counted although it exceeds b. */
  lemma InexactSample(b: real) returns (ns: u64)
    requires !ExactBoundary(b)
    ensures ns < TWO_63 && Counted(b)(ns) && !AtMost(b)(ns)
  {
    var x := (b * MICRO).Floor;
    ns := (x + 1) * 1000;
    var us, k := x + 1, FloorLog2(x);
    assert Micros(ns) == us;
    if k + 1 < MAX_SLOTS {
      assert us != Pow2(k + 1);
      FloorLog2Unique(us, k);
    } else {
      FloorLog2Monotone(x, us);
      if k > MAX_SLOTS - 1 { Pow2Monotone(MAX_SLOTS - 1, k); }
    }
    assert Pow2(SlotOf(us)) <= x;
  }

  /** The le reading of a bucket is exact on all traces for exactly these boundaries. */
  lemma ExactReadingIff(b: real)
    ensures ExactAt(b) <==> ExactBoundary(b)
  {
    if ExactBoundary(b) {
      forall t: seq<Event<BlockReq>>, hk: HistKey
        | IsBlockTrace(t) && hk in Run(t).hists && |Recorded(t, hk)| < TWO_64
        ensures BucketTotal(Run(t).hists[hk], b) == CountIf(Recorded(t, hk), AtMost(b))
      {
        var ds := Recorded(t, hk);
        HistogramIsRecorded(t, hk);
        BucketIsCounted(ds, b);
        RecordedBounded(t, hk);
        forall ns | ns in ds ensures Counted(b)(ns) <==> AtMost(b)(ns) { ExactSample(b, ns); }
        CountIfMonotone(ds, Counted(b), AtMost(b));
        CountIfMonotone(ds, AtMost(b), Counted(b));
      }
    } else {
      var ns := InexactSample(b);
      var t, hk := OneRead(ns), HistKey(0, 0);
      OneReadRecords(ns);
      HistogramIsRecorded(t, hk);
      BucketIsCounted([ns], b);
    }
  }

  lemma NotAPower(j: nat)
    ensures Pow2(13) == 8192 && Pow2(14) == 16384 && Pow2(j) != 10001
  {
    Powers();
    Pow2Add(8, 5);
    if j < 13 { Pow2Monotone(j, 13); } else if j > 14 { Pow2Monotone(14, j); }
  }

  /** The default 10 ms boundary already counts a read that took 16 ms. */
  lemma DefaultBoundaryIsInexact()
    ensures !ExactAt(0.01)
    ensures Counted(0.01)(16_000_000) && !AtMost(0.01)(16_000_000)
  {
    forall j: nat ensures Pow2(j) != 10001 { NotAPower(j); }
    assert (0.01 * MICRO).Floor == 10000;
    ExactReadingIff(0.01);
    SixteenMillis();
  }

  lemma SixteenMillis()
    ensures Counted(0.01)(16_000_000) && !AtMost(0.01)(16_000_000)
  {
    NotAPower(13);
    FloorLog2Unique(16000, 13);
    assert Micros(16_000_000) == 16000;
  }
}

/** pkg/qmp/collector.go, ConvertBuckets: from QEMU's latency bins to cumulative buckets. */
module QmpBuckets {
  import opened Bits
  import opened LatencyMaps
  import opened EndToEnd
  import opened Seqs
  import opened Tables

  function Prefix(bins: seq<nat>, n: nat): nat
    requires n <= |bins|
  {
    if n == 0 then 0 else Prefix(bins, n - 1) + bins[n - 1]
  }

  /** What the loop writes for bin i: nothing for the last bin, which has no upper boundary. */
  function Bucket(boundaries: seq<real>, bins: seq<nat>, i: nat): Contribution<real, u64>
    requires i < |bins|
  {
    if i < |boundaries| then Some((boundaries[i] / NANO, Prefix(bins, i + 1) % TWO_64)) else None
  }

  function Buckets(boundaries: seq<real>, bins: seq<nat>): seq<Contribution<real, u64>> {
    seq(|bins|, i requires 0 <= i < |bins| => Bucket(boundaries, bins, i))
  }

  method ConvertBuckets(boundaries: seq<real>, bins: seq<u64>) returns (buckets: map<real, u64>, count: u64)
    ensures Describes(buckets, Buckets(boundaries, bins))
    ensures count == Prefix(bins, |bins|) % TWO_64
  {
    buckets, count := map[], 0;
    for i := 0 to |bins|
      invariant Describes(buckets, Buckets(boundaries, bins)[..i])
      invariant count == Prefix(bins, i) % TWO_64
    {
      DescribesOneMore(buckets, Buckets(boundaries, bins), i);
      WrapAdd(Prefix(bins, i), bins[i]);
      count := (count + bins[i]) % TWO_64;
      if i < |boundaries| {
        buckets := buckets[boundaries[i] / NANO := count];
      }
    }
    assert Buckets(boundaries, bins)[..|bins|] == Buckets(boundaries, bins);
  }

  // ---- What QEMU's bins hold ----

  ghost predicate Increasing(boundaries: seq<real>) {
    forall i, j :: 0 <= i < j < |boundaries| ==> boundaries[i] < boundaries[j]
  }

  /** QEMU's bin of a latency: how many boundaries are at or below it. */
  function BinOf(boundaries: seq<real>, ns: real): nat {
    if boundaries == [] || ns < boundaries[0] then 0 else 1 + BinOf(boundaries[1..], ns)
  }

  lemma {:induction false} BinIsBelow(boundaries: seq<real>, ns: real, i: nat)
    requires Increasing(boundaries)
    ensures BinOf(boundaries, ns) <= |boundaries|
    ensures i < |boundaries| ==> (BinOf(boundaries, ns) <= i <==> ns < boundaries[i])
  {
    if boundaries != [] && ns >= boundaries[0] {
      BinIsBelow(boundaries[1..], ns, if i > 0 then i - 1 else 0);
    }
  }

  function InBin(boundaries: seq<real>, i: nat): real -> bool { ns => BinOf(boundaries, ns) == i }
  function InBinsBefore(boundaries: seq<real>, n: nat): real -> bool { ns => BinOf(boundaries, ns) < n }
  function Under(b: real): real -> bool { ns => ns < b }

  function Bins(boundaries: seq<real>, samples: seq<real>): seq<nat> {
    seq(|boundaries| + 1, i requires 0 <= i < |boundaries| + 1 => CountIf(samples, InBin(boundaries, i)))
  }

  lemma {:induction false} OneBinMore(boundaries: seq<real>, samples: seq<real>, n: nat)
    ensures CountIf(samples, InBinsBefore(boundaries, n + 1)) ==
            CountIf(samples, InBinsBefore(boundaries, n)) + CountIf(samples, InBin(boundaries, n))
  {
    if samples != [] {
      OneBinMore(boundaries, samples[..|samples| - 1], n);
    }
  }

  lemma {:induction false} NoBinBefore(boundaries: seq<real>, samples: seq<real>)
    ensures CountIf(samples, InBinsBefore(boundaries, 0)) == 0
  {
    if samples != [] {
      NoBinBefore(boundaries, samples[..|samples| - 1]);
    }
  }

  lemma {:induction false} PrefixCounts(boundaries: seq<real>, samples: seq<real>, n: nat)
    requires n <= |boundaries| + 1
    ensures Prefix(Bins(boundaries, samples), n) == CountIf(samples, InBinsBefore(boundaries, n))
  {
    if n == 0 {
      NoBinBefore(boundaries, samples);
    } else {
      PrefixCounts(boundaries, samples, n - 1);
      OneBinMore(boundaries, samples, n - 1);
    }
  }

  lemma BoundariesApart(boundaries: seq<real>, i: nat, j: nat)
    requires Increasing(boundaries) && i < j < |boundaries|
    ensures boundaries[i] / NANO != boundaries[j] / NANO
  {
  }

  lemma BucketOfBoundary(boundaries: seq<real>, bins: seq<nat>, i: nat)
    requires Increasing(boundaries) && i < |boundaries| && i < |bins|
    ensures LastFor(Buckets(boundaries, bins), boundaries[i] / NANO) == Some(Prefix(bins, i + 1) % TWO_64)
  {
    var cs := Buckets(boundaries, bins);
    forall j | i < j < |cs| ensures !IsFor(cs[j], boundaries[i] / NANO) {
      if j < |boundaries| {
        BoundariesApart(boundaries, i, j);
      }
    }
    assert IsFor(cs[i], boundaries[i] / NANO);
    LastForIsLast(cs, boundaries[i] / NANO);
  }

  lemma PrefixIsUnder(boundaries: seq<real>, samples: seq<real>, i: nat)
    requires Increasing(boundaries) && i < |boundaries|
    ensures Prefix(Bins(boundaries, samples), i + 1) == CountIf(samples, Under(boundaries[i]))
  {
    PrefixCounts(boundaries, samples, i + 1);
    forall ns | ns in samples ensures InBinsBefore(boundaries, i + 1)(ns) <==> Under(boundaries[i])(ns) {
      BinIsBelow(boundaries, ns, i);
    }
    CountIfAgree(samples, InBinsBefore(boundaries, i + 1), Under(boundaries[i]));
  }

  /** Exported from QEMU's bins, the bucket of a boundary counts exactly the latencies below it, and the count
      is that of all latencies. */
  lemma BucketsCountSamples(boundaries: seq<real>, samples: seq<real>, i: nat)
    requires Increasing(boundaries) && |samples| < TWO_64 && i < |boundaries|
    ensures LastFor(Buckets(boundaries, Bins(boundaries, samples)), boundaries[i] / 1000000000.0) ==
      Some(CountIf(samples, Under(boundaries[i])))
    ensures Prefix(Bins(boundaries, samples), |boundaries| + 1) == |samples|
  {
    BucketOfBoundary(boundaries, Bins(boundaries, samples), i);
    PrefixIsUnder(boundaries, samples, i);
    SmallModulo(CountIf(samples, Under(boundaries[i])));
    CountsAll(boundaries, samples);
  }

  lemma CountsAll(boundaries: seq<real>, samples: seq<real>)
    requires Increasing(boundaries)
    ensures Prefix(Bins(boundaries, samples), |boundaries| + 1) == |samples|
  {
    PrefixCounts(boundaries, samples, |boundaries| + 1);
    forall ns | ns in samples ensures InBinsBefore(boundaries, |boundaries| + 1)(ns) {
      BinIsBelow(boundaries, ns, 0);
    }
    CountAll(samples, InBinsBefore(boundaries, |boundaries| + 1));
  }

  function AtOrUnder(b: real): real -> bool { ns => ns <= b }

  /** A bucket labelled with its boundary promises the latencies at or below it, so the reading is exact
      exactly when no latency falls on the boundary. */
  lemma {:induction false} ExactIffNoneOnBoundary(samples: seq<real>, b: real)
    ensures CountIf(samples, Under(b)) <= CountIf(samples, AtOrUnder(b))
    ensures CountIf(samples, Under(b)) == CountIf(samples, AtOrUnder(b)) <==> b !in samples
  {
    if samples != [] {
      var init, last := samples[..|samples| - 1], samples[|samples| - 1];
      ExactIffNoneOnBoundary(init, b);
      assert samples == init + [last];
    }
  }
}

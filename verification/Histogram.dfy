/** pkg/ebpf/histogram.go: power-of-two slots to a cumulative histogram with an estimated sum. */
module Histogram {
  import opened Bits
  import opened LatencyMaps

  /** math.Sqrt2, as Go's double prints it. */
  const SQRT2: real := 1.4142135623730951
  const MICRO: real := 1000000.0

  function SlotCeiling(i: nat): real { Pow2(i) as real / MICRO }

  function MidpointUs(i: nat): real {
    if i == 0 then 0.5 else Pow2(i - 1) as real * SQRT2
  }

  /** The midpoint of slot i is the geometric mean of 2^(i-1) and 2^i microseconds, up to rounding, and half a
      microsecond for the first slot. */
  lemma MidpointsAreGeometric(i: nat)
    ensures i == 0 ==> MidpointUs(i) == 0.5
    ensures i > 0 ==>
      var square, product := MidpointUs(i) * MidpointUs(i), Pow2(i - 1) as real * Pow2(i) as real;
      MidpointUs(i) > 0.0 && 0.999999999999999 * product < square < 1.000000000000001 * product
  {
    if i > 0 {
      var p := Pow2(i - 1) as real;
      SquareOfRoot(p);
      assert Pow2(i) as real == 2.0 * p;
    }
  }

  lemma PositiveSquare(p: real)
    requires p > 0.0
    ensures p * p > 0.0
  {
  }

  lemma SquareOfRoot(p: real)
    requires p > 0.0
    ensures var square, product := (p * SQRT2) * (p * SQRT2), p * (2.0 * p);
      0.999999999999999 * product < square < 1.000000000000001 * product
  {
    var q := p * p;
    PositiveSquare(p);
    assert (p * SQRT2) * (p * SQRT2) == q * (SQRT2 * SQRT2);
    assert p * (2.0 * p) == 2.0 * q;
  }

  /** Sum of the first n slots, before any 64-bit wrap. */
  function PrefixTotal(slots: Slots, n: nat): nat
    requires n <= MAX_SLOTS
  {
    if n == 0 then 0 else PrefixTotal(slots, n - 1) + slots[n - 1]
  }

  /** Sum of those of the first n slots whose ceiling lies within the boundary b. */
  function TotalWithin(slots: Slots, b: real, n: nat): nat
    requires n <= MAX_SLOTS
  {
    if n == 0 then 0
    else TotalWithin(slots, b, n - 1) + (if SlotCeiling(n - 1) <= b then slots[n - 1] else 0)
  }

  /** Seconds that c samples in slot i add to the estimated sum. */
  function Contribution(c: nat, i: nat): real {
    c as real * (MidpointUs(i) / MICRO)
  }

  function EstimatedSum(slots: Slots, n: nat): real
    requires n <= MAX_SLOTS
  {
    if n == 0 then 0.0
    else EstimatedSum(slots, n - 1) + Contribution(slots[n - 1], n - 1)
  }

  function SampleCount(slots: Slots): nat { PrefixTotal(slots, |slots|) }
  function BucketTotal(slots: Slots, b: real): nat { TotalWithin(slots, b, |slots|) }
  function SumSeconds(slots: Slots): real { EstimatedSum(slots, |slots|) }

  lemma CeilingsIncrease(i: nat, j: nat)
    requires i <= j
    ensures SlotCeiling(i) <= SlotCeiling(j)
  {
    if i < j { Pow2Monotone(i, j); }
  }

  lemma {:induction false} WithinIsPrefix(slots: Slots, b: real, m: nat, n: nat)
    requires m <= n <= MAX_SLOTS
    requires forall i :: 0 <= i < n ==> (SlotCeiling(i) <= b <==> i < m)
    ensures TotalWithin(slots, b, n) == PrefixTotal(slots, m)
  {
    if n > 0 {
      assert SlotCeiling(n - 1) <= b <==> n - 1 < m;
      WithinIsPrefix(slots, b, if m < n then m else n - 1, n - 1);
    }
  }

  method InitSlotCeiling() returns (ceiling: array<real>)
    ensures fresh(ceiling) && ceiling.Length == MAX_SLOTS
    ensures forall i :: 0 <= i < MAX_SLOTS ==> ceiling[i] == SlotCeiling(i)
  {
    ceiling := new real[MAX_SLOTS];
    for i := 0 to MAX_SLOTS
      invariant forall k :: 0 <= k < i ==> ceiling[k] == SlotCeiling(k)
    {
      ShlOne(i);
      ceiling[i] := Shl(1, i) as real / MICRO;
    }
  }

  /** The highest slot whose ceiling is within b, or -1. */
  method HighestSlotWithin(ceiling: array<real>, b: real) returns (slot: int)
    requires ceiling.Length == MAX_SLOTS
    requires forall i :: 0 <= i < MAX_SLOTS ==> ceiling[i] == SlotCeiling(i)
    ensures -1 <= slot < MAX_SLOTS
    ensures forall i :: 0 <= i < MAX_SLOTS ==> (SlotCeiling(i) <= b <==> i <= slot)
  {
    slot := -1;
    for i := 0 to MAX_SLOTS
      invariant -1 <= slot < i
      invariant forall k :: 0 <= k < i ==> (SlotCeiling(k) <= b <==> k <= slot)
    {
      if ceiling[i] <= b {
        forall k | 0 <= k <= i ensures SlotCeiling(k) <= b { CeilingsIncrease(k, i); }
        slot := i;
      }
    }
  }

  method AddWrapped(a: u64, c: u64, ghost total: nat) returns (s: u64)
    requires a == total % TWO_64
    ensures s == (total + c) % TWO_64
  {
    WrapAdd(total, c);
    s := (a + c) % TWO_64;
  }

  method Midpoint(i: nat) returns (us: real)
    ensures us == MidpointUs(i)
  {
    us := if i == 0 then 0.5 else Shl(1, i - 1) as real * SQRT2;
    if i > 0 { ShlOne(i - 1); }
  }

  /** First loop of SlotsToConstHistogram: running totals, count and estimated sum. */
  method AddContribution(sum: real, c: u64, i: nat) returns (r: real)
    requires i < MAX_SLOTS
    ensures r == sum + Contribution(c, i)
  {
    var midpointUs := Midpoint(i);
    r := sum + c as real * (midpointUs / MICRO);
  }

  method Accumulate(slots: Slots) returns (runningTotal: array<u64>, count: u64, sum: real)
    ensures fresh(runningTotal) && runningTotal.Length == MAX_SLOTS
    ensures forall k :: 0 <= k < MAX_SLOTS ==> runningTotal[k] == PrefixTotal(slots, k + 1) % TWO_64
    ensures count == SampleCount(slots) % TWO_64
    ensures sum == SumSeconds(slots)
  {
    runningTotal := new u64[MAX_SLOTS];
    var cumulative: u64 := 0;
    count, sum := 0, 0.0;
    for i := 0 to |slots|
      invariant cumulative == count == PrefixTotal(slots, i) % TWO_64
      invariant sum == EstimatedSum(slots, i)
      invariant forall k :: 0 <= k < i ==> runningTotal[k] == PrefixTotal(slots, k + 1) % TWO_64
    {
      cumulative := AddWrapped(cumulative, slots[i], PrefixTotal(slots, i));
      count := AddWrapped(count, slots[i], PrefixTotal(slots, i));
      runningTotal[i] := cumulative;
      sum := AddContribution(sum, slots[i], i);
    }
  }

  method SlotsToConstHistogram(ceiling: array<real>, slots: Slots, promBuckets: seq<real>)
    returns (count: u64, sum: real, buckets: map<real, u64>)
    requires ceiling.Length == MAX_SLOTS
    requires forall i :: 0 <= i < MAX_SLOTS ==> ceiling[i] == SlotCeiling(i)
    ensures count == SampleCount(slots) % TWO_64
    ensures sum == SumSeconds(slots)
    ensures buckets.Keys == set b | b in promBuckets
    ensures forall b :: b in buckets ==> buckets[b] == BucketTotal(slots, b) % TWO_64
  {
    var runningTotal: array<u64>;
    runningTotal, count, sum := Accumulate(slots);
    buckets := map[];
    for j := 0 to |promBuckets|
      invariant forall k :: 0 <= k < MAX_SLOTS ==> runningTotal[k] == PrefixTotal(slots, k + 1) % TWO_64
      invariant buckets.Keys == set b | b in promBuckets[..j]
      invariant forall b :: b in buckets ==> buckets[b] == BucketTotal(slots, b) % TWO_64
    {
      var b := promBuckets[j];
      var slot := HighestSlotWithin(ceiling, b);
      WithinIsPrefix(slots, b, slot + 1, |slots|);
      buckets := buckets[b := if slot >= 0 then runningTotal[slot] else 0];
    }
    assert promBuckets[..|promBuckets|] == promBuckets;
  }
}

/**
 The latency histogram: 16 linear buckets per power of two, 64-bit counters.
 */
module LatencyHistograms {
  const SUB: nat := 16
  const SIZE: nat := 960
  const WORD: nat := 0x1_0000_0000_0000_0000
  const HALF_WORD: nat := 0x8000_0000_0000_0000

  // ------------------------------------------------------------- powers of two

  function Pow2(e: nat): (r: nat)
    ensures r >= 1
  {
    if e == 0 then 1 else 2 * Pow2(e - 1)
  }

  /** Position of the highest bit: 63 less the count of leading zeros. */
  function Log2(v: nat): nat
    requires v >= 1
  {
    if v == 1 then 0 else 1 + Log2(v / 2)
  }

  lemma {:induction false} Log2Bounds(v: nat)
    requires v >= 1
    ensures Pow2(Log2(v)) <= v < 2 * Pow2(Log2(v))
  {
    if v > 1 { Log2Bounds(v / 2); }
  }

  lemma {:induction false} Pow2Monotone(a: nat, b: nat)
    requires a <= b
    ensures Pow2(a) <= Pow2(b)
  {
    if a < b { Pow2Monotone(a, b - 1); }
  }

  lemma Log2Monotone(u: nat, v: nat)
    requires 1 <= u <= v
    ensures Log2(u) <= Log2(v)
  {
    Log2Bounds(u);
    Log2Bounds(v);
    if Log2(v) < Log2(u) { Pow2Monotone(Log2(v) + 1, Log2(u)); }
  }

  lemma Shift4(e: nat)
    ensures Pow2(e + 4) == 16 * Pow2(e)
  {
    assert Pow2(e + 1) == 2 * Pow2(e) && Pow2(e + 2) == 2 * Pow2(e + 1) && Pow2(e + 3) == 2 * Pow2(e + 2);
  }

  /** 2^(e + 56), for the two bounds that matter. */
  lemma Shift56(e: nat)
    ensures Pow2(e + 56) == 0x100_0000_0000_0000 * Pow2(e)
  {
    assert Pow2(e + 28) == 0x1000_0000 * Pow2(e) by { Shift28(e); }
    Shift28(e + 28);
  }

  lemma Shift28(e: nat)
    ensures Pow2(e + 28) == 0x1000_0000 * Pow2(e)
  {
    hide Pow2;
    Shift4(e);
    Shift4(e + 4);
    Shift4(e + 8);
    Shift4(e + 12);
    Shift4(e + 16);
    Shift4(e + 20);
    Shift4(e + 24);
  }

  lemma KnownPowers()
    ensures Pow2(4) == SUB && Pow2(58) == 0x400_0000_0000_0000 && Pow2(63) == HALF_WORD
  {
    assert Pow2(1) == 2 && Pow2(2) == 4 && Pow2(3) == 8;
    Shift4(3);
    Shift56(2);
    Shift56(7);
  }

  // ------------------------------------------------------- shifts as multiplication

  /** `q << e` for `p` = 2^e. */
  function Scaled(q: nat, p: nat): nat { q * p }

  /** `v >> e` for `p` = 2^e. */
  function Quotient(v: nat, p: nat): nat
    requires p >= 1
  {
    v / p
  }

  lemma ScaledNext(q: nat, p: nat)
    ensures Scaled(q + 1, p) == Scaled(q, p) + p
  {
  }

  lemma {:induction false} ScaledMonotone(a: nat, b: nat, p: nat)
    requires a <= b
    ensures Scaled(a, p) <= Scaled(b, p)
    ensures a < b ==> Scaled(a, p) + p <= Scaled(b, p)
  {
    hide Scaled;
    if a < b {
      ScaledMonotone(a, b - 1, p);
      ScaledNext(b - 1, p);
    }
  }

  lemma QuotientMeaning(v: nat, p: nat)
    requires p >= 1
    ensures Scaled(Quotient(v, p), p) <= v < Scaled(Quotient(v, p), p) + p
  {
    assert v == v / p * p + v % p;
  }

  lemma QuotientUnique(v: nat, q: nat, p: nat)
    requires p >= 1 && Scaled(q, p) <= v < Scaled(q, p) + p
    ensures Quotient(v, p) == q
  {
    hide Scaled, Quotient;
    QuotientMeaning(v, p);
    var r := Quotient(v, p);
    if r < q { ScaledMonotone(r, q, p); }
    if q < r { ScaledMonotone(q, r, p); }
  }

  lemma QuotientRange(v: nat, p: nat)
    requires p >= 1 && 16 * p <= v < 32 * p
    ensures SUB <= Quotient(v, p) < 2 * SUB
  {
    hide Quotient, Scaled;
    QuotientMeaning(v, p);
    var q := Quotient(v, p);
    Sixteens(p);
    if q < 16 { ScaledMonotone(q, 16, p); }
    if q >= 32 { ScaledMonotone(32, q, p); }
  }

  lemma Sixteens(p: nat)
    ensures Scaled(16, p) == 16 * p && Scaled(32, p) == 32 * p
  {
  }

  // -------------------------------------------------------------------- buckets

  /** Bucket of a value, before the clamp: linear below 16, then 16 per power of two. */
  function RawIndex(v: nat): nat {
    if v < SUB then v
    else
      Size(v);
      (Log2(v) - 4 + 1) * SUB + (Quotient(v, Pow2(Log2(v) - 4)) - SUB)
  }

  /** From 16 on, the four bits after the highest pick the linear bucket. */
  lemma Size(v: nat)
    requires v >= SUB
    ensures Log2(v) >= 4 && SUB * Pow2(Log2(v) - 4) <= v < 2 * SUB * Pow2(Log2(v) - 4)
    ensures SUB <= Quotient(v, Pow2(Log2(v) - 4)) < 2 * SUB
  {
    hide Quotient;
    Shift4(0);
    Log2Bounds(v);
    if Log2(v) < 4 { Pow2Monotone(Log2(v) + 1, 4); }
    Shift4(Log2(v) - 4);
    QuotientRange(v, Pow2(Log2(v) - 4));
  }

  function IndexOf(v: nat): (r: nat)
    ensures r < SIZE
  {
    if RawIndex(v) < SIZE then RawIndex(v) else SIZE - 1
  }

  /** Lower bound of a bucket. */
  function ValueOf(idx: nat): nat {
    if idx < SUB then idx else Scaled(SUB + idx % SUB, Pow2(idx / SUB - 1))
  }

  lemma DivideIndex(g: nat, sub: nat)
    requires sub < SUB
    ensures (g * SUB + sub) / SUB == g && (g * SUB + sub) % SUB == sub
  {
  }

  /** The lower bound of bucket `sub` of group `g`. */
  lemma ValueAt(g: nat, sub: nat)
    requires g >= 1 && sub < SUB
    ensures ValueOf(g * SUB + sub) == Scaled(SUB + sub, Pow2(g - 1))
  {
    hide Scaled, Pow2;
    DivideIndex(g, sub);
  }

  /** A value lies in its bucket, whose width is at most a sixteenth of it. */
  lemma BucketBounds(v: nat)
    requires v >= SUB
    ensures Log2(v) >= 4
    ensures var p := Pow2(Log2(v) - 4);
            && ValueOf(RawIndex(v)) == Scaled(Quotient(v, p), p) <= v < Scaled(Quotient(v, p), p) + p
            && SUB * p <= v && SUB <= Quotient(v, p) < 2 * SUB
            && RawIndex(v) == (Log2(v) - 3) * SUB + (Quotient(v, p) - SUB)
  {
    hide Quotient, Scaled, Pow2, Log2, ValueOf;
    Size(v);
    var p := Pow2(Log2(v) - 4);
    QuotientMeaning(v, p);
    ValueAt(Log2(v) - 3, Quotient(v, p) - SUB);
  }

  lemma RawMonotone(u: nat, v: nat)
    requires u <= v
    ensures RawIndex(u) <= RawIndex(v)
  {
    hide Quotient, Scaled;
    if v >= SUB { BucketBounds(v); }
    if u >= SUB {
      BucketBounds(u);
      Log2Monotone(u, v);
      if Log2(u) == Log2(v) {
        var p := Pow2(Log2(u) - 4);
        var a, b := Quotient(u, p), Quotient(v, p);
        if b < a { ScaledMonotone(b, a, p); }
      }
    }
  }

  /** Larger values never land in an earlier bucket. */
  lemma IndexMonotone(u: nat, v: nat)
    requires u <= v
    ensures IndexOf(u) <= IndexOf(v)
  {
    RawMonotone(u, v);
  }

  /** The clamp bites exactly from 2^63 on. */
  lemma ClampedFrom(v: nat)
    ensures RawIndex(v) < SIZE <==> v < HALF_WORD
  {
    hide Quotient, Scaled;
    KnownPowers();
    if v >= SUB {
      BucketBounds(v);
      Log2Bounds(v);
      if v < HALF_WORD {
        if Log2(v) > 62 { Pow2Monotone(63, Log2(v)); }
      } else {
        if Log2(v) < 63 { Pow2Monotone(Log2(v) + 1, 63); }
      }
    }
  }

  /**
   Accuracy: the bucket's lower bound never exceeds the value, and the error is at most a
   sixteenth of it, for exactly the values up to 31 * 2^62 / 15.
   */
  lemma Accuracy(v: nat)
    ensures ValueOf(IndexOf(v)) <= v
    ensures 16 * (v - ValueOf(IndexOf(v))) <= v <==> 15 * v <= 31 * 0x4000_0000_0000_0000
    ensures v < HALF_WORD ==> 16 * (v - ValueOf(IndexOf(v))) <= v
  {
    ClampedFrom(v);
    KnownPowers();
    if v >= SUB { BucketBounds(v); }
    assert ValueOf(SIZE - 1) == 31 * Pow2(58) by { DivideIndex(59, 15); }
  }

  /** The largest 64-bit value is almost twice its bucket's lower bound. */
  lemma AccuracyFails()
    ensures 16 * (WORD - 1 - ValueOf(IndexOf(WORD - 1))) > WORD - 1
  {
    hide IndexOf, ValueOf;
    Accuracy(WORD - 1);
  }

  /** Every bucket's lower bound lies in that bucket. */
  lemma IndexOfValue(idx: nat)
    requires idx < SIZE
    ensures IndexOf(ValueOf(idx)) == idx
  {
    hide Quotient, Scaled;
    if idx >= SUB {
      var g, sub := idx / SUB, idx % SUB;
      var p, v := Pow2(g - 1), ValueOf(idx);
      Shift4(g - 1);
      Sixteens(p);
      ScaledMonotone(SUB, SUB + sub, p);
      ScaledMonotone(SUB + sub, 32, p);
      Pow2Monotone(0, g - 1);
      HighestBit(v, g + 3);
      QuotientUnique(v, SUB + sub, p);
    }
  }

  lemma HighestBit(v: nat, e: nat)
    requires v >= 1 && Pow2(e) <= v < 2 * Pow2(e)
    ensures Log2(v) == e
  {
    Log2Bounds(v);
    if Log2(v) < e { Pow2Monotone(Log2(v) + 1, e); }
  }

  // ------------------------------------------------------------------- counting

  /** Samples in bucket `i`. */
  function InBucket(samples: seq<nat>, i: nat): nat {
    if samples == [] then 0
    else InBucket(samples[..|samples| - 1], i) + (if IndexOf(samples[|samples| - 1]) == i then 1 else 0)
  }

  /** Samples in the buckets before `n`. */
  function InFirst(samples: seq<nat>, n: nat): nat {
    if samples == [] then 0
    else InFirst(samples[..|samples| - 1], n) + (if IndexOf(samples[|samples| - 1]) < n then 1 else 0)
  }

  /** Samples below `x`. */
  function Below(samples: seq<nat>, x: nat): nat {
    if samples == [] then 0
    else Below(samples[..|samples| - 1], x) + (if samples[|samples| - 1] < x then 1 else 0)
  }

  function Sum(samples: seq<nat>): nat {
    if samples == [] then 0 else Sum(samples[..|samples| - 1]) + samples[|samples| - 1]
  }

  function Max(samples: seq<nat>): nat {
    if samples == [] then 0
    else
      var m := Max(samples[..|samples| - 1]);
      if samples[|samples| - 1] > m then samples[|samples| - 1] else m
  }

  lemma {:induction false} Joined(a: seq<nat>, b: seq<nat>, i: nat)
    ensures InBucket(a + b, i) == InBucket(a, i) + InBucket(b, i)
    ensures Sum(a + b) == Sum(a) + Sum(b)
    ensures Max(a + b) == (if Max(b) > Max(a) then Max(b) else Max(a))
    decreases |b|
  {
    hide IndexOf;
    if b == [] {
      assert a + b == a;
    } else {
      var n := |b| - 1;
      Joined(a, b[..n], i);
      assert (a + b)[..|a + b| - 1] == a + b[..n];
      assert (a + b)[|a + b| - 1] == b[n];
    }
  }

  lemma {:induction false} NextBucket(samples: seq<nat>, n: nat)
    ensures InFirst(samples, n + 1) == InFirst(samples, n) + InBucket(samples, n)
    ensures InFirst(samples, 0) == 0 && InFirst(samples, SIZE) == |samples|
    ensures InFirst(samples, n) <= |samples|
  {
    hide IndexOf;
    if samples != [] { NextBucket(samples[..|samples| - 1], n); }
  }

  /** `x` is the `k`-th smallest sample, counting from 1. */
  predicate KthSmallest(samples: seq<nat>, k: nat, x: nat) {
    Below(samples, x) < k <= Below(samples, x + 1)
  }

  /** Everything up to `x` is in its bucket or earlier; everything in earlier buckets is below it. */
  lemma {:induction false} RankBrackets(samples: seq<nat>, x: nat)
    ensures InFirst(samples, IndexOf(x)) <= Below(samples, x)
    ensures Below(samples, x + 1) <= InFirst(samples, IndexOf(x) + 1)
  {
    hide IndexOf;
    if samples != [] {
      var last := samples[|samples| - 1];
      RankBrackets(samples[..|samples| - 1], x);
      if last <= x { IndexMonotone(last, x); } else { IndexMonotone(x, last); }
      if last == x { IndexMonotone(x, last); } else if last < x { IndexMonotone(last, x); }
    }
  }

  lemma {:induction false} InFirstMonotone(samples: seq<nat>, a: nat, b: nat)
    requires a <= b
    ensures InFirst(samples, a) <= InFirst(samples, b)
  {
    hide IndexOf;
    if samples != [] { InFirstMonotone(samples[..|samples| - 1], a, b); }
  }

  /** The first bucket whose cumulative count reaches `k` is that of the `k`-th smallest sample. */
  lemma RankBucket(samples: seq<nat>, k: nat, x: nat, i: nat)
    requires KthSmallest(samples, k, x)
    requires InFirst(samples, i) < k <= InFirst(samples, i + 1)
    ensures i == IndexOf(x)
  {
    hide IndexOf, InFirst, Below;
    RankBrackets(samples, x);
    if i < IndexOf(x) { InFirstMonotone(samples, i + 1, IndexOf(x)); }
    if i > IndexOf(x) { InFirstMonotone(samples, IndexOf(x) + 1, i); }
  }

  lemma {:induction false} AllBelow(samples: seq<nat>, x: nat)
    requires forall i :: 0 <= i < |samples| ==> samples[i] < x
    ensures Below(samples, x) == |samples| && Below(samples, 0) == 0
  {
    if samples != [] { AllBelow(samples[..|samples| - 1], x); }
  }

  lemma {:induction false} SampleBound(samples: seq<nat>) returns (x: nat)
    ensures forall i :: 0 <= i < |samples| ==> samples[i] < x
  {
    if samples == [] { return 0; }
    x := SampleBound(samples[..|samples| - 1]);
    if samples[|samples| - 1] >= x { x := samples[|samples| - 1] + 1; }
  }

  /** Walk up until the count reaches `k`. */
  lemma {:induction false} FindKth(samples: seq<nat>, k: nat, lo: nat, hi: nat) returns (x: nat)
    requires lo <= hi && Below(samples, lo) < k <= Below(samples, hi)
    ensures KthSmallest(samples, k, x)
    decreases hi - lo
  {
    if Below(samples, lo + 1) >= k { return lo; }
    x := FindKth(samples, k, lo + 1, hi);
  }

  /** Every rank from 1 to the number of samples has its sample. */
  lemma KthExists(samples: seq<nat>, k: nat)
    requires 1 <= k <= |samples|
    ensures exists x :: KthSmallest(samples, k, x)
  {
    var hi := SampleBound(samples);
    AllBelow(samples, hi);
    var x := FindKth(samples, k, 0, hi);
  }

  lemma {:induction false} BelowStep(samples: seq<nat>, x: nat)
    ensures Below(samples, x + 1) > Below(samples, x) <==> x in samples
    ensures Below(samples, x) <= Below(samples, x + 1)
  {
    if samples != [] {
      BelowStep(samples[..|samples| - 1], x);
      assert samples == samples[..|samples| - 1] + [samples[|samples| - 1]];
    }
  }

  /** The k-th smallest is one of the samples. */
  lemma KthIsSample(samples: seq<nat>, k: nat, x: nat)
    requires KthSmallest(samples, k, x)
    ensures x in samples
  {
    BelowStep(samples, x);
  }

  // ------------------------------------------------------------------- the class

  /** The rank a percentile asks for. */
  function Target(pct: real, count: nat): int { (pct / 100.0 * count as real).Floor }

  /** `k` is the largest rank within `pct` per cent of `n`. */
  ghost predicate IsShare(pct: real, n: nat, k: int) {
    100.0 * k as real <= pct * n as real < 100.0 * (k + 1) as real
  }

  /** The rank asked for is the largest within that share of the samples. */
  lemma TargetMeaning(pct: real, count: nat, k: nat)
    requires 0.0 <= pct
    ensures k <= Target(pct, count) <==> 100.0 * k as real <= pct * count as real
  {
    var share := pct / 100.0 * count as real;
    assert 100.0 * share == pct * count as real by { Hundredth(pct, count as real); }
    assert k <= share.Floor <==> k as real <= share;
  }

  lemma Hundredth(pct: real, n: real)
    ensures 100.0 * (pct / 100.0 * n) == pct * n
  {
  }

  class LatencyHistogram {
    const counts: array<nat>
    var sum: nat
    var count: nat
    var max: nat

    /** The state after recording `samples`, in any order and by any route; counters wrap at 2^64. */
    ghost predicate Recorded(samples: seq<nat>)
      reads this, counts
    {
      && counts.Length == SIZE
      && (forall i :: 0 <= i < SIZE ==> counts[i] == InBucket(samples, i) % WORD)
      && sum == Sum(samples) % WORD && count == |samples| % WORD && max == Max(samples)
    }

    constructor ()
      ensures Recorded([]) && fresh(counts)
    {
      counts := new nat[SIZE](_ => 0);
      sum, count, max := 0, 0, 0;
    }

    method Record(ns: nat, ghost samples: seq<nat>)
      requires Recorded(samples) && ns < WORD
      modifies this, counts
      ensures Recorded(samples + [ns])
    {
      hide IndexOf;
      ghost var s := samples + [ns];
      assert s[..|samples|] == samples;
      var at := IndexOf(ns);
      counts[at] := (counts[at] + 1) % WORD;
      sum := (sum + ns) % WORD;
      count := (count + 1) % WORD;
      if ns > max { max := ns; }
      forall i | 0 <= i < SIZE ensures counts[i] == InBucket(s, i) % WORD {
        Wraps(InBucket(samples, i), 1);
      }
      Wraps(Sum(samples), ns);
      Wraps(|samples|, 1);
    }

    /** Merging is recording the other histogram's samples as well; merging with itself doubles. */
    method Merge(other: LatencyHistogram, ghost samples: seq<nat>, ghost more: seq<nat>)
      requires Recorded(samples) && other.Recorded(more)
      requires other == this || other.counts != counts
      modifies this, counts
      ensures Recorded(samples + more)
    {
      hide IndexOf, InBucket, Sum, Max;
      for i := 0 to SIZE
        modifies counts
        invariant forall j :: 0 <= j < i ==> counts[j] == InBucket(samples + more, j) % WORD
        invariant forall j :: i <= j < SIZE ==> counts[j] == InBucket(samples, j) % WORD
        invariant forall j :: i <= j < SIZE ==> other.counts[j] == InBucket(more, j) % WORD
      {
        Joined(samples, more, i);
        WrapsBoth(InBucket(samples, i), InBucket(more, i));
        counts[i] := (counts[i] + other.counts[i]) % WORD;
      }
      Joined(samples, more, 0);
      WrapsBoth(Sum(samples), Sum(more));
      WrapsBoth(|samples|, |more|);
      var otherMax := other.max;
      sum := (sum + other.sum) % WORD;
      count := (count + other.count) % WORD;
      if otherMax > max { max := otherMax; }
    }

    /**
     The value at a percentile: for target rank `k` from 1 on, the bucket bound of the k-th
     smallest sample; for rank 0, zero.
     */
    method PercentileNs(pct: real, ghost samples: seq<nat>) returns (ns: nat)
      requires Recorded(samples) && |samples| < WORD && 0.0 <= pct <= 100.0
      ensures var k := Target(pct, |samples|);
              && 0 <= k <= |samples|
              && IsShare(pct, |samples|, k)
              && (k == 0 ==> ns == 0)
              && forall x: nat :: k > 0 && KthSmallest(samples, k, x) ==> ns == ValueOf(IndexOf(x))
    {
      hide IndexOf, InBucket, InFirst, Below, Sum, Max, ValueOf, Target, IsShare;
      Share(pct, |samples|);
      if count == 0 { return 0; }
      var target: nat := Target(pct, count);
      var cumulative: nat := 0;
      NextBucket(samples, 0);
      for i := 0 to SIZE
        invariant cumulative == InFirst(samples, i)
        invariant i > 0 ==> cumulative < target
      {
        NextBucket(samples, i);
        NextBucket(samples, i + 1);
        cumulative := cumulative + counts[i];
        if cumulative >= target {
          forall x: nat | target > 0 && KthSmallest(samples, target, x) ensures i == IndexOf(x) {
            RankBucket(samples, target, x, i);
          }
          FirstBucketIsZero();
          return ValueOf(i);
        }
      }
      return max;
    }
  }

  lemma FirstBucketIsZero()
    ensures ValueOf(0) == 0
  {
  }

  lemma Share(pct: real, n: nat)
    requires 0.0 <= pct <= 100.0
    ensures 0 <= Target(pct, n) <= n && IsShare(pct, n, Target(pct, n))
  {
    hide Target;
    TargetInRange(pct, n);
    TargetMeaning(pct, n, Target(pct, n));
    TargetMeaning(pct, n, Target(pct, n) + 1);
  }

  lemma TargetInRange(pct: real, n: nat)
    requires 0.0 <= pct <= 100.0
    ensures 0 <= Target(pct, n) <= n
  {
    var f := pct / 100.0;
    assert 0.0 <= f <= 1.0;
    assert f * n as real >= 0.0;
    assert (1.0 - f) * n as real >= 0.0;
  }

  lemma Wraps(a: nat, b: nat)
    ensures (a % WORD + b) % WORD == (a + b) % WORD
  {
  }

  lemma WrapsBoth(a: nat, b: nat)
    ensures (a % WORD + b % WORD) % WORD == (a + b) % WORD
  {
  }

  /** Percentile accuracy: within a sixteenth below the k-th smallest sample. */
  lemma PercentileAccuracy(samples: seq<nat>, k: nat, x: nat)
    requires KthSmallest(samples, k, x) && x < HALF_WORD
    ensures x in samples && ValueOf(IndexOf(x)) <= x && 16 * (x - ValueOf(IndexOf(x))) <= x
  {
    KthIsSample(samples, k, x);
    Accuracy(x);
  }
}

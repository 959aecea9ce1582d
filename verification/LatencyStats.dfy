/** Streaming latency statistics: histogram, reservoir sample and percentiles
    (internal/metrics/latency.go).  Latencies in milliseconds are reals. */
module LatencyStats {

  const BOUNDS: seq<real> := [250.0, 500.0, 1000.0, 2000.0]

  /** The first bound above the latency, or the last bucket. */
  function BucketIndex(latency: real): (b: nat)
    ensures b <= |BOUNDS|
  {
    if latency < BOUNDS[0] then 0
    else if latency < BOUNDS[1] then 1
    else if latency < BOUNDS[2] then 2
    else if latency < BOUNDS[3] then 3
    else 4
  }

  // ---------------------------------------------------------------- the generator

  function Xor(a: bv64, b: bv64): bv64 { a ^ b }

  function Right12(s: bv64): bv64 { s >> 12 }

  function Right27(s: bv64): bv64 { s >> 27 }

  function Left25(s: bv64): bv64 { s << 25 }

  function XorRight12(s: bv64): bv64 { Xor(s, Right12(s)) }

  function XorLeft25(s: bv64): bv64 { Xor(s, Left25(s)) }

  function XorRight27(s: bv64): bv64 { Xor(s, Right27(s)) }

  /** One round of xorshift. */
  function Scramble(s: bv64): bv64 { XorRight27(XorLeft25(XorRight12(s))) }

  // What takes a round back: each step's shift, doubled until it leaves the word.

  function Right24(s: bv64): bv64 { s >> 24 }

  function Right48(s: bv64): bv64 { s >> 48 }

  function Right54(s: bv64): bv64 { s >> 54 }

  function Left50(s: bv64): bv64 { s << 50 }

  function UndoRight27(t: bv64): bv64 {
    var y := Xor(t, Right27(t));
    Xor(y, Right54(y))
  }

  function UndoLeft25(t: bv64): bv64 {
    var y := Xor(t, Left25(t));
    Xor(y, Left50(y))
  }

  function UndoRight12(t: bv64): bv64 {
    var y := Xor(t, Right12(t));
    var z := Xor(y, Right24(y));
    Xor(z, Right48(z))
  }

  lemma Right12Spreads(a: bv64, b: bv64)
    ensures Right12(Xor(a, b)) == Xor(Right12(a), Right12(b))
  {
  }

  lemma Right24Spreads(a: bv64, b: bv64)
    ensures Right24(Xor(a, b)) == Xor(Right24(a), Right24(b))
  {
  }

  lemma Right27Spreads(a: bv64, b: bv64)
    ensures Right27(Xor(a, b)) == Xor(Right27(a), Right27(b))
  {
  }

  lemma Left25Spreads(a: bv64, b: bv64)
    ensures Left25(Xor(a, b)) == Xor(Left25(a), Left25(b))
  {
  }

  lemma Right48Spreads(a: bv64, b: bv64)
    ensures Right48(Xor(a, b)) == Xor(Right48(a), Right48(b))
  {
  }

  lemma Right54Spreads(a: bv64, b: bv64)
    ensures Right54(Xor(a, b)) == Xor(Right54(a), Right54(b))
  {
  }

  lemma Left50Spreads(a: bv64, b: bv64)
    ensures Left50(Xor(a, b)) == Xor(Left50(a), Left50(b))
  {
  }

  lemma ShiftsDouble(a: bv64)
    ensures Right12(Right12(a)) == Right24(a) && Right24(Right24(a)) == Right48(a) && Right48(Right48(a)) == 0
    ensures Right27(Right27(a)) == Right54(a) && Right54(Right54(a)) == 0
    ensures Left25(Left25(a)) == Left50(a) && Left50(Left50(a)) == 0
  {
  }

  lemma Cancel(a: bv64, b: bv64, c: bv64)
    ensures Xor(Xor(a, b), Xor(b, c)) == Xor(a, c) && Xor(a, 0) == a
  {
    CancelBits(a, b, c);
  }

  lemma CancelBits(a: bv64, b: bv64, c: bv64)
    ensures (a ^ b) ^ (b ^ c) == a ^ c && a ^ 0 == a
  {
  }

  lemma Right12Undone(s: bv64)
    ensures UndoRight12(XorRight12(s)) == s
  {
    hide Xor, Right12, Right24, Right48;
    ShiftsDouble(s);
    Right12Spreads(s, Right12(s));
    Right24Spreads(s, Right24(s));
    Right48Spreads(s, Right48(s));
    Cancel(s, Right12(s), Right24(s));
    Cancel(s, Right24(s), Right48(s));
    Cancel(s, Right48(s), 0);
  }

  lemma Left25Undone(s: bv64)
    ensures UndoLeft25(XorLeft25(s)) == s
  {
    hide Xor, Left25, Left50;
    ShiftsDouble(s);
    Left25Spreads(s, Left25(s));
    Left50Spreads(s, Left50(s));
    Cancel(s, Left25(s), Left50(s));
    Cancel(s, Left50(s), 0);
  }

  lemma Right27Undone(s: bv64)
    ensures UndoRight27(XorRight27(s)) == s
  {
    hide Xor, Right27, Right54;
    ShiftsDouble(s);
    Right27Spreads(s, Right27(s));
    Right54Spreads(s, Right54(s));
    Cancel(s, Right27(s), Right54(s));
    Cancel(s, Right54(s), 0);
  }

  /** The round shifts by 12, 25 and 27, and loses nothing: it has an inverse, so no two states
      of the generator lead to the same next one. */
  lemma ScrambleInvertible(s: bv64)
    ensures UndoRight12(UndoLeft25(UndoRight27(Scramble(s)))) == s
  {
    hide XorRight12, XorLeft25, XorRight27, UndoRight12, UndoLeft25, UndoRight27;
    Right12Undone(s);
    Left25Undone(XorRight12(s));
    Right27Undone(XorLeft25(XorRight12(s)));
  }

  /** So a nonzero state stays nonzero, and the generator cannot get stuck. */
  lemma StateNeverZero(s: bv64)
    requires s != 0
    ensures Scramble(s) != 0
  {
    ScrambleInvertible(s);
    ScrambleInvertible(0);
    ZeroStays();
    hide Scramble, UndoRight12, UndoLeft25, UndoRight27;
  }

  lemma ZeroStays()
    ensures Scramble(0) == 0
  {
  }

  const TWO_TO_THE_64: nat := 0x1_0000_0000_0000_0000

  /** The state times an odd constant, in 64-bit arithmetic. */
  function Output(s: bv64): nat { (s as nat * 0x2545F4914F6CDD1D) % TWO_TO_THE_64 }

  /** Multiplying by the inverse of the constant gives the state back: different states have
      different outputs. */
  lemma OutputInvertible(s: bv64)
    ensures Output(s) * 0x59071D96D81ECD35 % 0x1_0000_0000_0000_0000 == s as nat
  {
    var n: nat := s as nat;
    var q, o := n * 0x2545F4914F6CDD1D / TWO_TO_THE_64, Output(s);
    assert n * 0x2545F4914F6CDD1D == TWO_TO_THE_64 * q + o;
    BelowWord(s);
    hide Output;
    var e := n * 934034299265436267 - q * 0x59071D96D81ECD35;
    assert o * 0x59071D96D81ECD35 == TWO_TO_THE_64 * e + n;
    RemainderIs(o * 0x59071D96D81ECD35, TWO_TO_THE_64, e, n);
  }

  lemma BelowWord(s: bv64)
    ensures s as nat < TWO_TO_THE_64
  {
  }

  lemma RemainderIs(x: int, d: nat, q: int, r: nat)
    requires r < d && x == d * q + r
    ensures x % d == r
  {
    var e := x / d;
    assert x == d * e + x % d;
    assert e < q ==> d * (e + 1) <= d * q;
    assert q < e ==> d * (q + 1) <= d * e;
  }

  // ---------------------------------------------------------------- adding a sample

  /** The minimum so far. It starts at the largest number there is, above every latency. */
  datatype Lowest = AboveAll | Lowest(value: real)

  datatype Stats = Stats(count: nat, sum: real, min: Lowest, max: real,
                         reservoir: seq<real>, seen: nat, buckets: seq<nat>, rand: bv64)

  const ZERO_BUCKETS: seq<nat> := [0, 0, 0, 0, 0]

  function Fresh(): Stats { Stats(0, 0.0, AboveAll, 0.0, [], 0, ZERO_BUCKETS, 1) }

  function Lower(m: Lowest, latency: real): Lowest {
    if m.AboveAll? || latency < m.value then Lowest(latency) else m
  }

  function Higher(m: real, latency: real): real { if latency > m then latency else m }

  /** Algorithm R: fill the reservoir, then replace a random slot or none. */
  function Add(s: Stats, size: nat, latency: real): (r: Stats)
    requires |s.buckets| == 5
    ensures |r.buckets| == 5
  {
    var b := BucketIndex(latency);
    var t := s.(count := s.count + 1, seen := s.seen + 1, buckets := s.buckets[b := s.buckets[b] + 1],
                sum := s.sum + latency, min := Lower(s.min, latency), max := Higher(s.max, latency));
    if |s.reservoir| < size then t.(reservoir := s.reservoir + [latency])
    else
      var j := Draw(s);
      t.(rand := Scramble(s.rand),
         reservoir := if j < size && j < |s.reservoir| then s.reservoir[j := latency] else s.reservoir)
  }

  /** The slot drawn for the next sample; beyond the reservoir's end it is dropped. */
  function Draw(s: Stats): nat { Output(Scramble(s.rand)) % (s.seen + 1) }

  class StreamingLatencyStats {
    var count: nat
    var sum: real
    var min: Lowest
    var max: real
    var reservoir: seq<real>
    var seen: nat
    var buckets: seq<nat>
    var randState: bv64
    const reservoirSize: nat

    function State(): Stats reads this {
      Stats(count, sum, min, max, reservoir, seen, buckets, randState)
    }

    constructor (size: nat)
      ensures State() == Fresh() && reservoirSize == size
    {
      count, sum, min, max := 0, 0.0, AboveAll, 0.0;
      reservoir, seen, buckets, randState := [], 0, ZERO_BUCKETS, 1;
      reservoirSize := size;
    }

    static method GetBucketIndex(latency: real) returns (b: nat)
      ensures b == BucketIndex(latency)
    {
      for i := 0 to |BOUNDS|
        invariant forall j :: 0 <= j < i ==> BOUNDS[j] <= latency
      {
        if latency < BOUNDS[i] { return i; }
      }
      b := |BOUNDS|;
    }

    method FastRand() returns (r: nat)
      modifies `randState
      ensures randState == Scramble(old(randState)) && r == Output(randState)
    {
      randState := XorRight12(randState);
      randState := XorLeft25(randState);
      randState := XorRight27(randState);
      r := Output(randState);
    }

    /** The part of AddSample that keeps sum, minimum and maximum. */
    method AddExtreme(latency: real)
      modifies `sum, `min, `max
      ensures sum == old(sum) + latency && min == Lower(old(min), latency) && max == Higher(old(max), latency)
    {
      sum := sum + latency;
      if min.AboveAll? || latency < min.value { min := Lowest(latency); }
      if latency > max { max := latency; }
    }

    method AddSample(latency: real)
      requires |buckets| == 5 && |reservoir| <= reservoirSize
      modifies this
      ensures State() == Add(old(State()), reservoirSize, latency)
      ensures |buckets| == 5 && |reservoir| <= reservoirSize
    {
      hide BucketIndex, Scramble, Output, Lower, Higher;
      count := count + 1;
      seen := seen + 1;
      AddExtreme(latency);
      var bucket := GetBucketIndex(latency);
      buckets := buckets[bucket := buckets[bucket] + 1];
      if |reservoir| < reservoirSize {
        reservoir := reservoir + [latency];
      } else {
        var r := FastRand();
        var j := r % seen;
        if j < reservoirSize {
          reservoir := reservoir[j := latency];
        }
      }
    }

    method Reset()
      modifies this
      ensures State() == Fresh().(rand := old(randState))
    {
      count, sum, min, max := 0, 0.0, AboveAll, 0.0;
      seen, reservoir, buckets := 0, [], ZERO_BUCKETS;
    }
  }

  // ---------------------------------------------------------------- against the stream

  function Run(samples: seq<real>, size: nat): (s: Stats)
    ensures |s.buckets| == 5
  {
    if samples == [] then Fresh() else Add(Run(samples[..|samples| - 1], size), size, samples[|samples| - 1])
  }

  /** The range that bucket b stands for. */
  predicate InRange(latency: real, b: nat)
    requires b <= |BOUNDS|
  {
    && (b > 0 ==> BOUNDS[b - 1] <= latency)
    && (b < |BOUNDS| ==> latency < BOUNDS[b])
  }

  function CountIn(samples: seq<real>, b: nat): nat
    requires b <= |BOUNDS|
  {
    if samples == [] then 0
    else CountIn(samples[..|samples| - 1], b) + if InRange(samples[|samples| - 1], b) then 1 else 0
  }

  lemma BucketIsRange(latency: real, b: nat)
    requires b <= |BOUNDS|
    ensures BucketIndex(latency) == b <==> InRange(latency, b)
    ensures BOUNDS == [250.0, 500.0, 1000.0, 2000.0]
  {
  }

  lemma AddCounts(s: Stats, size: nat, x: real)
    requires |s.buckets| == 5
    ensures Add(s, size, x).count == s.count + 1
    ensures Add(s, size, x).buckets == s.buckets[BucketIndex(x) := s.buckets[BucketIndex(x)] + 1]
  {
  }

  /** Every bucket counts exactly the samples in its range, and together they count them all. */
  lemma {:induction false} BucketsCount(samples: seq<real>, size: nat)
    ensures var s := Run(samples, size);
            && (forall b :: 0 <= b < 5 ==> s.buckets[b] == CountIn(samples, b))
            && s.buckets[0] + s.buckets[1] + s.buckets[2] + s.buckets[3] + s.buckets[4] == s.count == |samples|
  {
    if samples != [] {
      var init, x := samples[..|samples| - 1], samples[|samples| - 1];
      BucketsCount(init, size);
      var s, t := Run(init, size), Run(samples, size);
      AddCounts(s, size, x);
      forall b | 0 <= b < 5 ensures t.buckets[b] == CountIn(samples, b) {
        BucketIsRange(x, b);
      }
    }
  }

  lemma AddReservoir(s: Stats, size: nat, x: real)
    requires |s.buckets| == 5
    ensures var r := Add(s, size, x);
            && r.seen == s.seen + 1
            && r.rand == (if |s.reservoir| < size then s.rand else Scramble(s.rand))
            && r.reservoir == (if |s.reservoir| < size then s.reservoir + [x]
                               else if Draw(s) < size && Draw(s) < |s.reservoir| then s.reservoir[Draw(s) := x]
                               else s.reservoir)
  {
    hide BucketIndex, Scramble, Draw;
  }

  /** Algorithm R: the newest sample joins a reservoir that is not full; otherwise one number is
      drawn below the number of samples seen, and the sample takes that slot or, beyond the
      reservoir's end, none. All other slots keep their samples. */
  lemma NewestSample(samples: seq<real>, size: nat, x: real)
    ensures var s, t := Run(samples, size), Run(samples + [x], size);
            var drawn := Output(Scramble(s.rand)) % (|samples| + 1);
            if |samples| < size then t.reservoir == s.reservoir + [x] && t.rand == s.rand
            else
              && |s.reservoir| == size && t.rand == Scramble(s.rand)
              && t.reservoir == if drawn < size then s.reservoir[drawn := x] else s.reservoir
  {
    hide Scramble, Output, Add;
    assert (samples + [x])[..|samples|] == samples;
    ReservoirSamples(samples, size);
    AddReservoir(Run(samples, size), size, x);
  }

  lemma ReplaceInBag(s: seq<real>, j: nat, x: real, bag: multiset<real>)
    requires j < |s| && multiset(s) <= bag
    ensures multiset(s[j := x]) <= bag + multiset{x}
  {
    assert multiset(s[j := x]) == multiset(s) - multiset{s[j]} + multiset{x};
  }

  /** What the reservoir holds of the samples seen. */
  ghost predicate SampleOf(reservoir: seq<real>, samples: seq<real>, size: nat) {
    && |reservoir| == (if |samples| < size then |samples| else size)
    && multiset(reservoir) <= multiset(samples)
    && (|samples| <= size ==> reservoir == samples)
  }

  lemma SampleNext(s: Stats, samples: seq<real>, size: nat, x: real)
    requires |s.buckets| == 5 && SampleOf(s.reservoir, samples, size)
    ensures SampleOf(Add(s, size, x).reservoir, samples + [x], size)
  {
    AddReservoir(s, size, x);
    hide Add, Draw;
    assert multiset(samples + [x]) == multiset(samples) + multiset{x};
    if Draw(s) < |s.reservoir| { ReplaceInBag(s.reservoir, Draw(s), x, multiset(samples)); }
  }

  /** The reservoir holds as many samples as were seen, up to its size, each sample of the
      stream at most once; and the generator's state is never zero. */
  lemma {:induction false} ReservoirSamples(samples: seq<real>, size: nat)
    ensures var s := Run(samples, size);
            s.seen == |samples| && s.rand != 0 && SampleOf(s.reservoir, samples, size)
  {
    hide Add, Scramble, Draw, SampleOf;
    if samples == [] {
      EmptySample(size);
    } else {
      var init, x := samples[..|samples| - 1], samples[|samples| - 1];
      ReservoirSamples(init, size);
      StateNeverZero(Run(init, size).rand);
      AddReservoir(Run(init, size), size, x);
      SampleNext(Run(init, size), init, size, x);
      assert samples == init + [x];
    }
  }

  lemma EmptySample(size: nat)
    ensures SampleOf([], [], size)
  {
  }

  function Total(samples: seq<real>): real {
    if samples == [] then 0.0 else Total(samples[..|samples| - 1]) + samples[|samples| - 1]
  }

  lemma AddExtremes(s: Stats, size: nat, x: real)
    requires |s.buckets| == 5
    ensures var r := Add(s, size, x);
            r.sum == s.sum + x && r.min == Lower(s.min, x) && r.max == Higher(s.max, x)
  {
    hide BucketIndex, Scramble, Output;
  }

  /** Sum, minimum and maximum are exact, whatever the reservoir dropped; the maximum of
      latencies that are all negative is zero. */
  lemma {:induction false} ExtremesExact(samples: seq<real>, size: nat)
    ensures var s := Run(samples, size);
            && s.sum == Total(samples)
            && (s.min.AboveAll? <==> samples == [])
            && (s.min.Lowest? ==> s.min.value in samples && forall x :: x in samples ==> s.min.value <= x)
            && (s.max == 0.0 || s.max in samples) && s.max >= 0.0 && (forall x :: x in samples ==> x <= s.max)
  {
    if samples != [] {
      var init, x := samples[..|samples| - 1], samples[|samples| - 1];
      ExtremesExact(init, size);
      AddExtremes(Run(init, size), size, x);
      hide Add;
      assert samples == init + [x];
    }
  }

  // ---------------------------------------------------------------- percentiles

  /** Linear interpolation between the two samples around rank p * (n - 1). */
  function Percentile(sorted: seq<real>, p: real): real
    requires 0.0 <= p <= 1.0
  {
    if |sorted| == 0 then 0.0
    else if |sorted| == 1 then sorted[0]
    else AtRank(sorted, Rank(p, |sorted|))
  }

  /** The rank of percentile p among `count` sorted samples. */
  function Rank(p: real, count: nat): real { p * (count - 1) as real }

  function AtRank(sorted: seq<real>, rank: real): real
    requires |sorted| > 1
  {
    var lower := rank.Floor;
    if lower + 1 >= |sorted| || lower < 0 then sorted[|sorted| - 1]
    else
      var frac := rank - lower as real;
      sorted[lower] * (1.0 - frac) + sorted[lower + 1] * frac
  }

  /** Exactly what a percentile is: where p times the last index falls on index i, the i-th sorted
      sample, and between two of them the point of the line between them that lies as far. */
  lemma PercentileExact(sorted: seq<real>, p: real, i: nat, frac: real)
    requires 0.0 <= p <= 1.0 && i < |sorted| && 0.0 <= frac < 1.0
    requires p * (|sorted| - 1) as real == i as real + frac
    ensures frac == 0.0 ==> Percentile(sorted, p) == sorted[i]
    ensures frac > 0.0 ==> i + 1 < |sorted|
                           && Percentile(sorted, p) == sorted[i] + frac * (sorted[i + 1] - sorted[i])
  {
    if |sorted| > 1 {
      var last := (|sorted| - 1) as real;
      assert Rank(p, |sorted|) == i as real + frac;
      assert (i as real + frac).Floor == i;
      ProductNonNegative(1.0 - p, last);
      assert (1.0 - p) * last == last - p * last;
      hide Rank;
      if i + 1 < |sorted| {
        var a, b := sorted[i], sorted[i + 1];
        assert a * (1.0 - frac) + b * frac == a + frac * (b - a);
      }
    } else {
      assert p * 0.0 == 0.0;
    }
  }

  ghost predicate Sorted(s: seq<real>) {
    forall i, j :: 0 <= i < j < |s| ==> s[i] <= s[j]
  }

  lemma ProductNonNegative(x: real, y: real)
    requires x >= 0.0 && y >= 0.0
    ensures x * y >= 0.0
  {
  }

  lemma Between(a: real, b: real, frac: real)
    requires a <= b && 0.0 <= frac <= 1.0
    ensures a <= a * (1.0 - frac) + b * frac <= b
  {
    assert a * (1.0 - frac) + b * frac == a + (b - a) * frac;
    ProductNonNegative(b - a, frac);
    ProductNonNegative(b - a, 1.0 - frac);
  }

  lemma BetweenMonotone(a: real, b: real, f: real, g: real)
    requires a <= b && f <= g
    ensures a * (1.0 - f) + b * f <= a * (1.0 - g) + b * g
  {
    assert (a * (1.0 - g) + b * g) - (a * (1.0 - f) + b * f) == (b - a) * (g - f);
    ProductNonNegative(b - a, g - f);
  }

  lemma RankBounds(sorted: seq<real>, rank: real)
    requires Sorted(sorted) && |sorted| > 1 && 0.0 <= rank
    ensures var l := rank.Floor;
            l < |sorted| - 1 ==> sorted[l] <= AtRank(sorted, rank) <= sorted[l + 1]
  {
    var l := rank.Floor;
    if l < |sorted| - 1 {
      Between(sorted[l], sorted[l + 1], rank - l as real);
    }
  }

  lemma RankMonotone(sorted: seq<real>, r: real, s: real)
    requires Sorted(sorted) && |sorted| > 1 && 0.0 <= r <= s
    ensures AtRank(sorted, r) <= AtRank(sorted, s)
  {
    var l, m := r.Floor, s.Floor;
    RankBounds(sorted, r);
    RankBounds(sorted, s);
    if l < |sorted| - 1 && m < |sorted| - 1 && l == m {
      BetweenMonotone(sorted[l], sorted[l + 1], r - l as real, s - m as real);
    }
  }

  lemma ScaleMonotone(p: real, q: real, n: real)
    requires 0.0 <= p <= q && 0.0 <= n
    ensures 0.0 <= p * n <= q * n
  {
    ProductNonNegative(p, n);
    ProductNonNegative(q - p, n);
    assert q * n - p * n == (q - p) * n;
  }

  lemma RanksOrdered(p: real, q: real, count: nat)
    requires 0.0 <= p <= q && count > 0
    ensures 0.0 <= Rank(p, count) <= Rank(q, count)
  {
    ScaleMonotone(p, q, (count - 1) as real);
  }

  /** Percentiles are monotone, so p50 <= p75 <= p90 <= p95 <= p99 always. */
  lemma PercentileMonotone(sorted: seq<real>, p: real, q: real)
    requires Sorted(sorted) && 0.0 <= p <= q <= 1.0
    ensures Percentile(sorted, p) <= Percentile(sorted, q)
  {
    if |sorted| > 1 {
      RanksOrdered(p, q, |sorted|);
      RankMonotone(sorted, Rank(p, |sorted|), Rank(q, |sorted|));
    }
  }

  /** A percentile of a non-empty reservoir, however it is sorted, lies between its least and
      greatest samples, which are the percentiles 0 and 1. */
  lemma PercentileWithin(reservoir: seq<real>, sorted: seq<real>, p: real)
    requires reservoir != [] && multiset(sorted) == multiset(reservoir) && Sorted(sorted) && 0.0 <= p <= 1.0
    ensures Percentile(sorted, 0.0) in reservoir && Percentile(sorted, 1.0) in reservoir
    ensures forall x :: x in reservoir ==> Percentile(sorted, 0.0) <= x <= Percentile(sorted, 1.0)
    ensures Percentile(sorted, 0.0) <= Percentile(sorted, p) <= Percentile(sorted, 1.0)
  {
    assert |multiset(sorted)| == |sorted| && |multiset(reservoir)| == |reservoir|;
    PercentileMonotone(sorted, 0.0, p);
    PercentileMonotone(sorted, p, 1.0);
    var n := |sorted|;
    assert Percentile(sorted, 0.0) == sorted[0] by {
      if n > 1 { assert 0.0 * (n - 1) as real == 0.0; }
    }
    assert Percentile(sorted, 1.0) == sorted[n - 1] by {
      if n > 1 { assert 1.0 * (n - 1) as real == (n - 1) as real; }
    }
    assert sorted[0] in multiset(sorted) && sorted[n - 1] in multiset(sorted);
    forall x | x in reservoir ensures sorted[0] <= x <= sorted[n - 1] {
      assert x in multiset(reservoir);
      var i :| 0 <= i < n && sorted[i] == x;
    }
  }
}

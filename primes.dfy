/** primes.py: count the primes up to `max_check` by splitting [1, max_check]
    into per-worker ranges and testing every number by 6k +/- 1 trial
    division. */
module Primes {
  import opened Common
  import opened Chunking

  /** The mathematical notion the trial division decides. */
  predicate IsPrime(v: int)
  {
    v >= 2 && forall d :: 2 <= d < v ==> v % d != 0
  }

  /** Number of primes in [lo, hi). */
  function PrimeCount(lo: int, hi: int): int
    decreases hi - lo
  {
    if hi <= lo then 0 else PrimeCount(lo, hi - 1) + (if IsPrime(hi - 1) then 1 else 0)
  }

  /** A range holds between 0 and all of its numbers as primes. */
  lemma {:induction false} PrimeCountBounds(lo: int, hi: int)
    ensures 0 <= PrimeCount(lo, hi) <= Max(0, hi - lo)
    decreases hi - lo
  {
    if lo < hi {
      PrimeCountBounds(lo, hi - 1);
    }
  }

  lemma MulMod(b: int, t: int)
    requires b > 0
    ensures (b * t) % b == 0
  {
    var q, r := (b * t) / b, (b * t) % b;
    assert b * t == b * q + r;
    assert b * (t - q) == r;
    if t - q >= 1 {
      MulMono(1, t - q, b);
    } else if t - q <= -1 {
      MulMono(t - q, -1, b);
    }
  }

  /** A multiple of a multiple of b is a multiple of b. */
  lemma DivisorOfMultiple(v: int, a: int, b: int)
    requires a > 0 && b > 0 && v % a == 0 && a % b == 0
    ensures v % b == 0
  {
    var k := v / a;
    assert v == a * k;
    var m := a / b;
    assert a == b * m;
    assert v == b * (m * k);
    MulMod(b, m * k);
  }

  /** A divisor strictly between 1 and v rules v out. */
  lemma NotPrimeBy(v: int, d: int)
    requires 2 <= d < v && v % d == 0
    ensures !IsPrime(v)
  {
  }

  /** v has no divisor in [2, i). */
  predicate NoDivisorBelow(v: int, i: int)
  {
    forall d :: 2 <= d < i ==> v % d != 0
  }

  /** An odd v that 3 does not divide has no divisor in [2, 5). */
  lemma NoDivisorBelowFive(v: int)
    requires v % 2 != 0 && v % 3 != 0
    ensures NoDivisorBelow(v, 5)
  {
    if v % 4 == 0 {
      DivisorOfMultiple(v, 4, 2);
    }
  }

  /** With i = 6k + 5, every number of [i, i + 6) other than i and i + 2
      is a multiple of 2 or of 3. */
  lemma SixStepCase(v: int, i: int, d: int)
    requires i >= 5 && i % 6 == 5 && v % 2 != 0 && v % 3 != 0
    requires i < d < i + 6 && d != i + 2
    ensures v % d != 0
  {
    if d == i + 4 {
      assert d % 3 == 0;
      if v % d == 0 { DivisorOfMultiple(v, d, 3); }
    } else {
      assert d % 2 == 0;
      if v % d == 0 { DivisorOfMultiple(v, d, 2); }
    }
  }

  /** With i = 6k + 5 and v coprime to 6, the only candidates below i + 6
      not ruled out by 2 and 3 are i and i + 2. */
  lemma SixStepClear(v: int, i: int)
    requires i >= 5 && i % 6 == 5
    requires v % 2 != 0 && v % 3 != 0 && v % i != 0 && v % (i + 2) != 0
    requires NoDivisorBelow(v, i)
    ensures NoDivisorBelow(v, i + 6)
  {
    forall d | 2 <= d < i + 6
      ensures v % d != 0
    {
      if i < d && d != i + 2 {
        SixStepCase(v, i, d);
      }
    }
  }

  /** A divisor d of v with d >= i, where i * i > v, leaves a cofactor
      v / d that is a divisor in [2, i). */
  lemma SmallCofactor(v: int, i: int, d: int)
    requires v >= 2 && i >= 2 && i * i > v
    requires i <= d < v && v % d == 0
    ensures 2 <= v / d < i && v % (v / d) == 0
  {
    var q := v / d;
    assert v == d * q;
    if q <= 1 {
      MulMono(q, 1, d);
      assert false;
    } else if q >= i {
      MulMono(i, d, i);
      MulMono(i, q, d);
      assert false;
    }
    MulMod(q, d);
  }

  /** A number with no divisor in [2, i), where i * i > v, is prime. */
  lemma NoSmallDivisorIsPrime(v: int, i: int)
    requires v >= 2 && i >= 2 && i * i > v
    requires NoDivisorBelow(v, i)
    ensures IsPrime(v)
  {
    forall d | 2 <= d < v
      ensures v % d != 0
    {
      if d >= i && v % d == 0 {
        SmallCofactor(v, i, d);
      }
    }
  }

  /** `_is_prime`: decides primality exactly. Small cases first (<= 1 is not
      prime, 2 and 3 are), then multiples of 2 or 3, then divisors i and
      i + 2 for i = 5, 11, 17, ... while i * i <= v. */
  method IsPrimeTrial(v: int) returns (p: bool)
    ensures p == IsPrime(v)
  {
    if v <= 1 {
      return false;
    }
    if v <= 3 {
      return true;
    }
    if v % 2 == 0 {
      NotPrimeBy(v, 2);
      return false;
    }
    if v % 3 == 0 {
      NotPrimeBy(v, 3);
      return false;
    }
    NoDivisorBelowFive(v);
    var i := 5;
    while i * i <= v
      invariant i >= 5 && i % 6 == 5
      invariant NoDivisorBelow(v, i)
      decreases v - i
    {
      MulMono(5, i, i);
      if v % i == 0 {
        NotPrimeBy(v, i);
        return false;
      }
      if v % (i + 2) == 0 {
        NotPrimeBy(v, i + 2);
        return false;
      }
      SixStepClear(v, i);
      i := i + 6;
    }
    NoSmallDivisorIsPrime(v, i);
    return true;
  }

  /** `process_primes(chunk_size, start)`: the number of primes in
      [start, start + chunk_size). */
  method ProcessPrimes(chunkSize: int, start: int) returns (count: int)
    ensures count == PrimeCount(start, start + chunkSize)
    ensures 0 <= count <= Max(0, chunkSize)
  {
    count := 0;
    var n := start;
    while n < start + chunkSize
      invariant start <= n && (n <= start + chunkSize || n == start)
      invariant count == PrimeCount(start, n)
    {
      var p := IsPrimeTrial(n);
      if p {
        count := count + 1;
      }
      n := n + 1;
    }
    PrimeCountBounds(start, start + chunkSize);
  }

  /** `chunk_size = max_check // num_workers` (floor division; the divisor
      is positive, where Dafny's `/` agrees with Python's `//`). */
  function ChunkSize(maxCheck: int, numWorkers: nat): (r: Result<int>)
    ensures r.Err? <==> numWorkers == 0
    ensures r.Ok? ==> r.value * numWorkers <= maxCheck < (r.value + 1) * numWorkers
  {
    if numWorkers == 0 then Err(ZeroDivisionError) else Ok(maxCheck / numWorkers)
  }

  /** `starts = list(range(1, max_check + 1, chunk_size))`. */
  function Starts(maxCheck: int, numWorkers: nat): Result<seq<int>>
  {
    var cs :- ChunkSize(maxCheck, numWorkers);
    Range(1, maxCheck + 1, cs)
  }

  /** The work function `partial(process_primes, chunk_size)`, by the value
      ProcessPrimes is proved to return. */
  function CountFrom(cs: int): int -> int
  {
    s => PrimeCount(s, s + cs)
  }

  /** The printed total: the sum of the per-chunk counts of the mapped
      work function. */
  function TotalPrimes(maxCheck: int, numWorkers: nat): Result<int>
  {
    var cs :- ChunkSize(maxCheck, numWorkers);
    var starts :- Range(1, maxCheck + 1, cs);
    Ok(Sum(MapSeq(CountFrom(cs), starts)))
  }

  /** Counting is additive over adjacent ranges. */
  lemma {:induction false} PrimeCountSplit(a: int, b: int, c: int)
    requires a <= b <= c
    ensures PrimeCount(a, c) == PrimeCount(a, b) + PrimeCount(b, c)
    decreases c - b
  {
    if b < c {
      PrimeCountSplit(a, b, c - 1);
    }
  }

  /** Where back-to-back chunks of size cs from a, started while below
      stop, end. */
  function ChunksEnd(a: int, stop: int, cs: int): (e: int)
    requires cs > 0
    ensures a <= e
    decreases stop - a
  {
    if a < stop then ChunksEnd(a + cs, stop, cs) else a
  }

  lemma {:induction false} ChunksEndValue(a: int, stop: int, cs: int)
    requires cs > 0
    ensures ChunksEnd(a, stop, cs) == a + |RangeSeq(a, stop, cs)| * cs
    decreases stop - a
  {
    if a < stop {
      ChunksEndValue(a + cs, stop, cs);
      MulSucc(|RangeSeq(a + cs, stop, cs)|, cs);
    }
  }

  /** The counts of back-to-back chunks of size cs add up to the count of
      their union. */
  lemma {:induction false} SumOfChunkCounts(a: int, stop: int, cs: int)
    requires cs > 0
    ensures SumOverRange(CountFrom(cs), a, stop, cs) == PrimeCount(a, ChunksEnd(a, stop, cs))
    decreases stop - a
  {
    if a < stop {
      SumOfChunkCounts(a + cs, stop, cs);
      PrimeCountSplit(a, a + cs, ChunksEnd(a + cs, stop, cs));
    }
  }

  /** With max_check < num_workers the chunk size is 0 and `range` raises
      ValueError; otherwise (for a positive worker count) the starts exist. */
  lemma StartsError(maxCheck: int, numWorkers: nat)
    requires numWorkers > 0
    ensures Starts(maxCheck, numWorkers).Err? <==> 0 <= maxCheck < numWorkers
    ensures Starts(maxCheck, numWorkers).Err? ==> Starts(maxCheck, numWorkers).error == ValueError
  {
    var cs := maxCheck / numWorkers;
    assert maxCheck == numWorkers * cs + maxCheck % numWorkers;
  }

  /** The chunks [s, s + cs) for the starts are back to back from 1, so they
      are pairwise disjoint; their union [1, 1 + m * cs) contains
      [1, max_check] and overshoots it by less than one chunk. */
  lemma StartsPartition(maxCheck: int, numWorkers: nat)
    requires numWorkers > 0 && maxCheck >= numWorkers
    ensures Starts(maxCheck, numWorkers).Ok?
    ensures var cs := maxCheck / numWorkers;
      var starts := Starts(maxCheck, numWorkers).value;
      && cs > 0
      && (forall k :: 0 <= k < |starts| ==> starts[k] == 1 + k * cs)
      && maxCheck <= |starts| * cs < maxCheck + cs
  {
    StartsError(maxCheck, numWorkers);
    var cs := maxCheck / numWorkers;
    var starts := RangeSeq(1, maxCheck + 1, cs);
    RangeUp(1, maxCheck + 1, cs);
    assert starts[|starts| - 1] == 1 + (|starts| - 1) * cs <= maxCheck;
  }

  lemma ChunkSizePositive(maxCheck: int, numWorkers: nat)
    requires numWorkers > 0 && maxCheck >= numWorkers
    ensures maxCheck / numWorkers >= 1
    ensures ChunkSize(maxCheck, numWorkers) == Ok(maxCheck / numWorkers)
  {
    var cs := maxCheck / numWorkers;
    assert maxCheck == numWorkers * cs + maxCheck % numWorkers;
    if cs < 1 {
      MulMono(cs, 0, numWorkers);
    }
  }

  /** The total as a running sum over the chunk starts. */
  lemma TotalAsSum(maxCheck: int, numWorkers: nat)
    requires numWorkers > 0 && maxCheck >= numWorkers
    ensures maxCheck / numWorkers >= 1
    ensures TotalPrimes(maxCheck, numWorkers) ==
      Ok(SumOverRange(CountFrom(maxCheck / numWorkers), 1, maxCheck + 1, maxCheck / numWorkers))
  {
    ChunkSizePositive(maxCheck, numWorkers);
    var cs := maxCheck / numWorkers;
    var starts := RangeSeq(1, maxCheck + 1, cs);
    assert TotalPrimes(maxCheck, numWorkers) == Ok(Sum(MapSeq(CountFrom(cs), starts)));
    SumMapRange(CountFrom(cs), 1, maxCheck + 1, cs);
  }

  /** The corrected total as a running sum over the chunk starts. */
  lemma ClampedAsSum(maxCheck: int, numWorkers: nat)
    requires numWorkers > 0 && maxCheck >= numWorkers
    ensures maxCheck / numWorkers >= 1
    ensures TotalPrimesClamped(maxCheck, numWorkers) ==
      Ok(SumOverRange(ClampedCountFrom(maxCheck / numWorkers, maxCheck + 1), 1, maxCheck + 1, maxCheck / numWorkers))
  {
    ChunkSizePositive(maxCheck, numWorkers);
    var cs := maxCheck / numWorkers;
    var starts := RangeSeq(1, maxCheck + 1, cs);
    assert TotalPrimesClamped(maxCheck, numWorkers) == Ok(Sum(MapSeq(ClampedCountFrom(cs, maxCheck + 1), starts)));
    SumMapRange(ClampedCountFrom(cs, maxCheck + 1), 1, maxCheck + 1, cs);
  }

  /** Back-to-back chunks started while below stop end at or past stop, and
      less than one chunk past it. */
  lemma {:induction false} ChunksEndBounds(a: int, stop: int, cs: int)
    requires cs > 0 && a < stop
    ensures stop <= ChunksEnd(a, stop, cs) < stop + cs
    decreases stop - a
  {
    if a + cs < stop {
      ChunksEndBounds(a + cs, stop, cs);
    }
  }

  /** k chunks of size cs from a end exactly at a + k * cs. */
  lemma {:induction false} ChunksEndExact(a: int, k: nat, cs: int)
    requires cs > 0
    ensures ChunksEnd(a, a + k * cs, cs) == a + k * cs
    decreases k
  {
    if k > 0 {
      MulSucc(k - 1, cs);
      MulMono(1, k, cs);
      assert a + k * cs == (a + cs) + (k - 1) * cs;
      ChunksEndExact(a + cs, k - 1, cs);
    }
  }

  /** The printed total is the number of primes in the union of the chunks,
      [1, e), where e = 1 + (number of starts) * chunk_size is at least
      max_check + 1 and less than one chunk beyond it. */
  lemma TotalPrimesCounts(maxCheck: int, numWorkers: nat)
    requires numWorkers > 0 && maxCheck >= numWorkers
    ensures var cs := maxCheck / numWorkers;
      cs > 0 &&
      var e := ChunksEnd(1, maxCheck + 1, cs);
      && e == 1 + |RangeSeq(1, maxCheck + 1, cs)| * cs
      && maxCheck + 1 <= e < maxCheck + 1 + cs
      && TotalPrimes(maxCheck, numWorkers) == Ok(PrimeCount(1, e))
  {
    var cs := maxCheck / numWorkers;
    TotalAsSum(maxCheck, numWorkers);
    SumOfChunkCounts(1, maxCheck + 1, cs);
    ChunksEndBounds(1, maxCheck + 1, cs);
    ChunksEndValue(1, maxCheck + 1, cs);
  }

  /** When num_workers divides max_check the total is exactly the number of
      primes <= max_check. */
  lemma TotalWhenWorkersDivide(maxCheck: int, numWorkers: nat)
    requires numWorkers > 0 && maxCheck > 0 && maxCheck % numWorkers == 0
    ensures TotalPrimes(maxCheck, numWorkers) == Ok(PrimeCount(1, maxCheck + 1))
  {
    var cs := maxCheck / numWorkers;
    assert maxCheck == numWorkers * cs;
    if cs <= 0 {
      MulMono(cs, 0, numWorkers);
    }
    assert maxCheck >= numWorkers by { MulMono(1, cs, numWorkers); }
    TotalPrimesCounts(maxCheck, numWorkers);
    ChunksEndExact(1, numWorkers, cs);
  }

  lemma ElevenIsPrime()
    ensures IsPrime(11) && !IsPrime(12)
  {
    forall d | 2 <= d < 11
      ensures 11 % d != 0
    {
      assert d in {2, 3, 4, 5, 6, 7, 8, 9, 10};
    }
    assert 12 % 2 == 0;
  }

  /** As written, max_check = 10 with 3 workers gives chunks of 3 starting
      at 1, 4, 7, 10, which also test 11 and 12: the total counts the prime
      11 although it is above max_check. */
  lemma TotalOvershoots()
    ensures TotalPrimes(10, 3) == Ok(PrimeCount(1, 11) + 1)
  {
    assert 10 / 3 == 3;
    TotalPrimesCounts(10, 3);
    assert ChunksEnd(10, 11, 3) == 13;
    assert ChunksEnd(4, 11, 3) == ChunksEnd(7, 11, 3) == 13;
    assert ChunksEnd(1, 11, 3) == 13;
    PrimeCountSplit(1, 11, 13);
    ElevenIsPrime();
  }

  /** The corrected work function: the chunk starting at s is cut at
      max_check + 1 (as `process_primes(min(chunk_size, max_check + 1 - s), s)`
      would do). */
  function ClampedCountFrom(cs: int, stop: int): int -> int
  {
    s => PrimeCount(s, Min(s + cs, stop))
  }

  /** The corrected total: the chunks no longer reach past max_check. */
  function TotalPrimesClamped(maxCheck: int, numWorkers: nat): Result<int>
  {
    var cs :- ChunkSize(maxCheck, numWorkers);
    var starts :- Range(1, maxCheck + 1, cs);
    Ok(Sum(MapSeq(ClampedCountFrom(cs, maxCheck + 1), starts)))
  }

  lemma ClampedAt(cs: int, stop: int, a: int)
    ensures ClampedCountFrom(cs, stop)(a) == PrimeCount(a, Min(a + cs, stop))
  {
  }

  lemma {:induction false} SumOfClampedCounts(a: int, stop: int, cs: int)
    requires cs > 0 && a <= stop
    ensures SumOverRange(ClampedCountFrom(cs, stop), a, stop, cs) == PrimeCount(a, stop)
    decreases stop - a
  {
    if a < stop {
      ClampedAt(cs, stop, a);
      if a + cs < stop {
        SumOfClampedCounts(a + cs, stop, cs);
        PrimeCountSplit(a, a + cs, stop);
      }
    }
  }

  /** A negative max_check gives a negative chunk size: `range` counts down
      from 1, every chunk [s, s + chunk_size) is empty, and both totals are 0,
      which is the number of primes <= max_check. */
  lemma NegativeMaxCheck(maxCheck: int, numWorkers: nat)
    requires numWorkers > 0 && maxCheck < 0
    ensures maxCheck / numWorkers < 0
    ensures TotalPrimes(maxCheck, numWorkers) == Ok(0) == Ok(PrimeCount(1, maxCheck + 1))
    ensures TotalPrimesClamped(maxCheck, numWorkers) == Ok(0)
  {
    var cs := maxCheck / numWorkers;
    assert maxCheck == numWorkers * cs + maxCheck % numWorkers;
    if cs >= 0 {
      MulMono(0, cs, numWorkers);
    }
    var starts := RangeSeq(1, maxCheck + 1, cs);
    assert ChunkSize(maxCheck, numWorkers) == Ok(cs);
    assert TotalPrimes(maxCheck, numWorkers) == Ok(Sum(MapSeq(CountFrom(cs), starts)));
    assert TotalPrimesClamped(maxCheck, numWorkers) == Ok(Sum(MapSeq(ClampedCountFrom(cs, maxCheck + 1), starts)));
    forall i | 0 <= i < |starts|
      ensures CountFrom(cs)(starts[i]) == 0 && ClampedCountFrom(cs, maxCheck + 1)(starts[i]) == 0
    {
      ClampedAt(cs, maxCheck + 1, starts[i]);
    }
    SumMapZero(CountFrom(cs), starts);
    SumMapZero(ClampedCountFrom(cs, maxCheck + 1), starts);
  }

  /** With the clamp the total is the number of primes <= max_check for
      every input for which the starts exist: a positive worker count and
      max_check not in [0, num_workers). */
  lemma TotalPrimesClampedCorrect(maxCheck: int, numWorkers: nat)
    requires numWorkers > 0 && !(0 <= maxCheck < numWorkers)
    ensures TotalPrimesClamped(maxCheck, numWorkers) == Ok(PrimeCount(1, maxCheck + 1))
  {
    if maxCheck < 0 {
      NegativeMaxCheck(maxCheck, numWorkers);
    } else {
      ClampedAsSum(maxCheck, numWorkers);
      SumOfClampedCounts(1, maxCheck + 1, maxCheck / numWorkers);
    }
  }
}

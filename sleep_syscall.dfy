/** sleep_syscall.py: every call sorts a fixed list of sleep times by
    `x & mask` for a random mask, then sleeps for each time in turn and
    adds it to a counter. The mask is a parameter and the sleeping itself
    is not modelled; what is left is the sort and the running total. */
module SleepSyscall {
  import opened Common

  /** Python `x & y` on non-negative integers, bit by bit from the lowest. */
  function BitAnd(x: nat, y: nat): (r: nat)
    ensures r <= x && r <= y
  {
    if x == 0 || y == 0 then 0
    else 2 * BitAnd(x / 2, y / 2) + (if x % 2 == 1 && y % 2 == 1 then 1 else 0)
  }

  /** Bit k of x, counting from the lowest. */
  function Bit(x: nat, k: nat): nat
  {
    if k == 0 then x % 2 else Bit(x / 2, k - 1)
  }

  /** Every bit of x & y is set exactly when it is set in both x and y. */
  lemma {:induction false} BitAndBits(x: nat, y: nat, k: nat)
    ensures Bit(BitAnd(x, y), k) == if Bit(x, k) == 1 && Bit(y, k) == 1 then 1 else 0
  {
    if x == 0 || y == 0 {
      ZeroBits(k);
    } else if k > 0 {
      var r := BitAnd(x, y);
      assert r / 2 == BitAnd(x / 2, y / 2);
      BitAndBits(x / 2, y / 2, k - 1);
    }
  }

  lemma {:induction false} ZeroBits(k: nat)
    ensures Bit(0, k) == 0
  {
    if k > 0 {
      ZeroBits(k - 1);
    }
  }

  /** The sort key `lambda x: x & mask`. */
  function Key(mask: nat, x: nat): nat
  {
    BitAnd(x, mask)
  }

  /** Inserts x before the first element whose key is not smaller, so that
      x precedes the elements with its key that were already there. */
  function Insert(mask: nat, x: nat, ys: seq<nat>): (r: seq<nat>)
    ensures |r| == |ys| + 1
    ensures multiset(r) == multiset(ys) + multiset{x}
  {
    if ys == [] || Key(mask, x) <= Key(mask, ys[0]) then [x] + ys
    else
      assert ys == [ys[0]] + ys[1..];
      [ys[0]] + Insert(mask, x, ys[1..])
  }

  /** `sorted(xs, key=lambda x: x & mask)`: a stable insertion sort. */
  function SortByKey(mask: nat, xs: seq<nat>): (r: seq<nat>)
    ensures |r| == |xs|
  {
    if xs == [] then [] else Insert(mask, xs[0], SortByKey(mask, xs[1..]))
  }

  /** Keys never decrease along the sequence. */
  predicate SortedByKey(mask: nat, s: seq<nat>)
  {
    forall i, j :: 0 <= i < j < |s| ==> Key(mask, s[i]) <= Key(mask, s[j])
  }

  /** The elements of s whose key is k, in their order in s. */
  function WithKey(mask: nat, k: nat, s: seq<nat>): (r: seq<nat>)
    ensures forall i :: 0 <= i < |r| ==> Key(mask, r[i]) == k
  {
    if s == [] then []
    else if Key(mask, s[0]) == k then [s[0]] + WithKey(mask, k, s[1..])
    else WithKey(mask, k, s[1..])
  }

  /** The sorted output is a permutation of the input. */
  lemma {:induction false} SortPermutes(mask: nat, xs: seq<nat>)
    ensures multiset(SortByKey(mask, xs)) == multiset(xs)
  {
    if xs != [] {
      SortPermutes(mask, xs[1..]);
      assert xs == [xs[0]] + xs[1..];
    }
  }

  lemma {:induction false} InsertSorted(mask: nat, x: nat, ys: seq<nat>)
    requires SortedByKey(mask, ys)
    ensures SortedByKey(mask, Insert(mask, x, ys))
    ensures forall i :: 0 <= i < |Insert(mask, x, ys)| ==>
      Key(mask, Insert(mask, x, ys)[i]) == Key(mask, x) || (|ys| > 0 && Key(mask, ys[0]) <= Key(mask, Insert(mask, x, ys)[i]))
    decreases |ys|
  {
    if ys != [] && Key(mask, x) > Key(mask, ys[0]) {
      InsertSorted(mask, x, ys[1..]);
      var t := Insert(mask, x, ys[1..]);
      assert Insert(mask, x, ys) == [ys[0]] + t;
      forall i | 0 <= i < |t|
        ensures Key(mask, ys[0]) <= Key(mask, t[i])
      {
        if Key(mask, t[i]) != Key(mask, x) {
          assert |ys| > 1 && Key(mask, ys[1]) <= Key(mask, t[i]);
        }
      }
    }
  }

  /** The sorted output has non-decreasing keys. */
  lemma {:induction false} SortSorted(mask: nat, xs: seq<nat>)
    ensures SortedByKey(mask, SortByKey(mask, xs))
  {
    if xs != [] {
      SortSorted(mask, xs[1..]);
      InsertSorted(mask, xs[0], SortByKey(mask, xs[1..]));
    }
  }

  lemma {:induction false} WithKeyInsert(mask: nat, k: nat, x: nat, ys: seq<nat>)
    ensures WithKey(mask, k, Insert(mask, x, ys)) ==
      if Key(mask, x) == k then [x] + WithKey(mask, k, ys) else WithKey(mask, k, ys)
    decreases |ys|
  {
    if ys != [] && Key(mask, x) > Key(mask, ys[0]) {
      WithKeyInsert(mask, k, x, ys[1..]);
      assert ([ys[0]] + Insert(mask, x, ys[1..]))[1..] == Insert(mask, x, ys[1..]);
    } else {
      assert ([x] + ys)[1..] == ys;
    }
  }

  /** The sort is stable: for every key, the elements carrying it appear in
      the output in the same order as in the input. */
  lemma {:induction false} SortStable(mask: nat, k: nat, xs: seq<nat>)
    ensures WithKey(mask, k, SortByKey(mask, xs)) == WithKey(mask, k, xs)
  {
    if xs != [] {
      SortStable(mask, k, xs[1..]);
      WithKeyInsert(mask, k, xs[0], SortByKey(mask, xs[1..]));
    }
  }

  lemma {:induction false} SumInsert(mask: nat, x: nat, ys: seq<nat>)
    ensures Sum(Insert(mask, x, ys)) == x + Sum(ys)
    decreases |ys|
  {
    if ys == [] || Key(mask, x) <= Key(mask, ys[0]) {
      SumAppend([x], ys);
      assert Sum([x]) == Sum([]) + x;
    } else {
      SumInsert(mask, x, ys[1..]);
      SumAppend([ys[0]], Insert(mask, x, ys[1..]));
      SumAppend([ys[0]], ys[1..]);
      assert [ys[0]] + ys[1..] == ys;
      assert Sum([ys[0]]) == Sum([]) + ys[0];
    }
  }

  /** Sorting does not change the total. */
  lemma {:induction false} SumSorted(mask: nat, xs: seq<nat>)
    ensures Sum(SortByKey(mask, xs)) == Sum(xs)
  {
    if xs != [] {
      SumSorted(mask, xs[1..]);
      SumInsert(mask, xs[0], SortByKey(mask, xs[1..]));
      SumAppend([xs[0]], xs[1..]);
      assert [xs[0]] + xs[1..] == xs;
      assert Sum([xs[0]]) == Sum([]) + xs[0];
    }
  }

  /** The list sorted on every call, with the caller's time last. */
  function BaseTimes(inputSleep: nat): seq<nat>
  {
    [1, 2, 2, 4, 4, inputSleep]
  }

  /** `sleep_times` for a given mask. */
  function SleepTimes(inputSleep: nat, mask: nat): seq<nat>
  {
    SortByKey(mask, BaseTimes(inputSleep))
  }

  /** `sleep_times` holds the six times, ordered by key and stably. */
  lemma SleepTimesSorted(inputSleep: nat, mask: nat)
    ensures multiset(SleepTimes(inputSleep, mask)) == multiset(BaseTimes(inputSleep))
    ensures SortedByKey(mask, SleepTimes(inputSleep, mask))
    ensures forall k :: WithKey(mask, k, SleepTimes(inputSleep, mask)) == WithKey(mask, k, BaseTimes(inputSleep))
  {
    SortPermutes(mask, BaseTimes(inputSleep));
    SortSorted(mask, BaseTimes(inputSleep));
    forall k {
      SortStable(mask, k, BaseTimes(inputSleep));
    }
  }

  /** The value `process_sleep` returns: the sum of the sorted times. */
  function SleepCount(inputSleep: nat, mask: nat): int
  {
    Sum(SleepTimes(inputSleep, mask))
  }

  /** Whatever the mask, the count is 1 + 2 + 2 + 4 + 4 + input_sleep. */
  lemma SleepCountValue(inputSleep: nat, mask: nat)
    ensures SleepCount(inputSleep, mask) == 13 + inputSleep
  {
    SumSorted(mask, BaseTimes(inputSleep));
    var b := BaseTimes(inputSleep);
    assert b[..5] == [1, 2, 2, 4, 4];
    assert Sum([1]) == 1 by { assert [1][..0] == []; }
    assert Sum([1, 2]) == 3 by { assert [1, 2][..1] == [1]; }
    assert Sum([1, 2, 2]) == 5 by { assert [1, 2, 2][..2] == [1, 2]; }
    assert Sum([1, 2, 2, 4]) == 9 by { assert [1, 2, 2, 4][..3] == [1, 2, 2]; }
    assert Sum([1, 2, 2, 4, 4]) == 13 by { assert [1, 2, 2, 4, 4][..4] == [1, 2, 2, 4]; }
  }

  /** `process_sleep(input_sleep)` with its random mask passed in: sort the
      times, then add each one to the counter in order. */
  method ProcessSleep(inputSleep: nat, mask: nat) returns (count: int)
    ensures count == SleepCount(inputSleep, mask)
    ensures count == 13 + inputSleep
  {
    var sleepTimes := SortByKey(mask, [1, 2, 2, 4, 4, inputSleep]);
    count := 0;
    for i := 0 to |sleepTimes|
      invariant count == Sum(sleepTimes[..i])
    {
      assert sleepTimes[..i + 1][..i] == sleepTimes[..i];
      count := count + sleepTimes[i];
    }
    assert sleepTimes[..|sleepTimes|] == sleepTimes;
    SleepCountValue(inputSleep, mask);
  }

  /** The inputs `[1, 2] * 4` handed to `executor.map`. */
  function Inputs(): (r: seq<nat>)
    ensures |r| == 8
    ensures forall i :: 0 <= i < |r| ==> r[i] == if i % 2 == 0 then 1 else 2
  {
    [1, 2] + [1, 2] + [1, 2] + [1, 2]
  }

  /** `list(executor.map(process_sleep, inputs))`, with the mask each call
      draws given in masks: one count per input, in input order. */
  function RunSleeps(inputs: seq<nat>, masks: seq<nat>): (r: seq<int>)
    requires |masks| == |inputs|
    ensures |r| == |inputs|
    ensures forall i :: 0 <= i < |inputs| ==> r[i] == SleepCount(inputs[i], masks[i])
  {
    seq(|inputs|, i requires 0 <= i < |inputs| => SleepCount(inputs[i], masks[i]))
  }

  /** The script's output does not depend on the masks drawn. */
  lemma RunSleepsValue(masks: seq<nat>)
    requires |masks| == |Inputs()|
    ensures RunSleeps(Inputs(), masks) == [14, 15, 14, 15, 14, 15, 14, 15]
  {
    var r := RunSleeps(Inputs(), masks);
    forall i | 0 <= i < |Inputs()|
      ensures r[i] == 13 + Inputs()[i]
    {
      SleepCountValue(Inputs()[i], masks[i]);
    }
  }
}

/** Python's `range`, slicing and short reads, and the facts about
    "offsets stepping by a chunk size" that every `__main__` block relies on:
    the chunks are contiguous, disjoint, cover the input in order, and how
    many of them there are. */
module Chunking {
  import opened Common

  /** `list(range(start, stop, step))`; a zero step raises `ValueError`. */
  function Range(start: int, stop: int, step: int): (r: Result<seq<int>>)
    ensures r.Err? <==> step == 0
    ensures r.Err? ==> r.error == ValueError
    ensures r.Ok? ==> r.value == RangeSeq(start, stop, step)
  {
    if step == 0 then Err(ValueError) else Ok(RangeSeq(start, stop, step))
  }

  /** The elements of a range with a non-zero step, in iteration order. */
  function RangeSeq(start: int, stop: int, step: int): (r: seq<int>)
    requires step != 0
    ensures step > 0 ==> forall k :: 0 <= k < |r| ==> start <= r[k] < stop
    decreases if step > 0 then stop - start else start - stop
  {
    if step > 0 && start < stop then [start] + RangeSeq(start + step, stop, step)
    else if step < 0 && start > stop then [start] + RangeSeq(start + step, stop, step)
    else []
  }

  /** f summed over an ascending range, one start after another. */
  function SumOverRange(f: int -> int, start: int, stop: int, step: int): int
    requires step > 0
    decreases stop - start
  {
    if start < stop then f(start) + SumOverRange(f, start + step, stop, step) else 0
  }

  /** A non-empty ascending range is its start followed by the range from
      the next start. */
  lemma RangeFront(start: int, stop: int, step: int)
    requires step > 0 && start < stop
    ensures RangeSeq(start, stop, step) != []
    ensures RangeSeq(start, stop, step)[0] == start
    ensures RangeSeq(start, stop, step)[1..] == RangeSeq(start + step, stop, step)
  {
    assert RangeSeq(start, stop, step) == [start] + RangeSeq(start + step, stop, step);
  }

  /** `sum(map(f, range(start, stop, step)))` for a positive step is that
      running sum. */
  lemma {:induction false} SumMapRange(f: int -> int, start: int, stop: int, step: int)
    requires step > 0
    ensures Sum(MapSeq(f, RangeSeq(start, stop, step))) == SumOverRange(f, start, stop, step)
    decreases stop - start
  {
    if start < stop {
      RangeFront(start, stop, step);
      SumMapFront(f, RangeSeq(start, stop, step));
      SumMapRange(f, start + step, stop, step);
    }
  }

  lemma MulMono(a: int, b: int, c: int)
    requires a <= b && c >= 0
    ensures a * c <= b * c
  {
    assert b * c - a * c == (b - a) * c;
  }

  lemma MulSucc(a: int, c: int)
    ensures (a + 1) * c == a * c + c
  {
  }

  /** An ascending range is start, start + step, start + 2*step, ..., all
      below stop, and it has the fewest elements that reach stop. */
  lemma {:induction false} RangeUp(start: int, stop: int, step: int)
    requires step > 0
    ensures forall k :: 0 <= k < |RangeSeq(start, stop, step)| ==> RangeSeq(start, stop, step)[k] == start + k * step
    ensures start + |RangeSeq(start, stop, step)| * step >= stop
    ensures RangeSeq(start, stop, step) == [] <==> start >= stop
    decreases stop - start
  {
    if start < stop {
      var r := RangeSeq(start, stop, step);
      var rest := RangeSeq(start + step, stop, step);
      RangeUp(start + step, stop, step);
      assert r == [start] + rest;
      forall k | 1 <= k < |r|
        ensures r[k] == start + k * step
      {
        MulSucc(k - 1, step);
        assert r[k] == rest[k - 1] == start + step + (k - 1) * step;
      }
      MulSucc(|rest|, step);
    }
  }

  /** An ascending range has exactly ceil((stop - start) / step) elements. */
  lemma RangeCount(start: int, stop: int, step: int)
    requires step > 0 && start <= stop
    ensures |RangeSeq(start, stop, step)| == CeilDiv(stop - start, step)
  {
    var r := RangeSeq(start, stop, step);
    var m, q := |r|, CeilDiv(stop - start, step);
    RangeUp(start, stop, step);
    if m > 0 {
      assert r[m - 1] == start + (m - 1) * step < stop;
    }
    if m < q {
      MulMono(m, q - 1, step);
    } else if m > q {
      MulMono(q, m - 1, step);
    }
  }

  /** `list(range(0, total, step))` for a non-negative step: the chunk
      offsets of every partition in the scripts. */
  function Offsets(total: nat, step: nat): (r: Result<seq<nat>>)
    ensures r.Err? <==> step == 0
    ensures r == Range(0, total, step)
  {
    if step == 0 then Err(ValueError)
    else
      var offs: seq<nat> := RangeSeq(0, total, step);
      Ok(offs)
  }

  /** `data[o:o + n]`, and also `f.seek(o); f.read(n)`: the read is short
      at the end of the data and empty past it. */
  function Slice<T>(s: seq<T>, o: nat, n: nat): (r: seq<T>)
    ensures |r| == if o >= |s| then 0 else Min(n, |s| - o)
    ensures forall i :: 0 <= i < |r| ==> r[i] == s[o + i]
  {
    if o >= |s| then [] else s[o..Min(o + n, |s|)]
  }

  /** The work function "read n items at the given offset". */
  function SliceAt<T>(s: seq<T>, n: nat): nat -> seq<T>
  {
    (o: nat) => Slice(s, o, n)
  }

  /** The pieces read from o on: the chunk at o, then those after it. */
  lemma ConcatSlicesStep<T>(s: seq<T>, o: nat, n: nat)
    requires n > 0 && o < |s|
    ensures Concat(MapSeq<nat, seq<T>>(SliceAt(s, n), RangeSeq(o, |s|, n))) ==
      Slice(s, o, n) + Concat(MapSeq<nat, seq<T>>(SliceAt(s, n), RangeSeq(o + n, |s|, n)))
  {
    var f := SliceAt(s, n);
    var rest: seq<nat> := RangeSeq(o + n, |s|, n);
    assert RangeSeq(o, |s|, n) == [o] + rest;
    MapSeqCons(f, o, rest);
    ConcatCons(f(o), MapSeq(f, rest));
  }

  /** A chunk that ends inside the input, followed by the rest. */
  lemma SliceThenRest<T>(s: seq<T>, o: nat, n: nat)
    requires o + n < |s|
    ensures Slice(s, o, n) + s[o + n..] == s[o..]
  {
    assert Slice(s, o, n) == s[o..o + n];
    assert s[o..o + n] + s[o + n..] == s[o..];
  }

  /** The last chunk is all that is left of the input. */
  lemma ConcatSlicesLast<T>(s: seq<T>, o: nat, n: nat)
    requires n > 0 && o < |s| <= o + n
    ensures Concat(MapSeq<nat, seq<T>>(SliceAt(s, n), RangeSeq(o, |s|, n))) == s[o..]
  {
    ConcatSlicesStep(s, o, n);
    assert RangeSeq(o + n, |s|, n) == [];
    assert Slice(s, o, n) == s[o..];
  }

  lemma {:induction false} ConcatSlicesFrom<T>(s: seq<T>, o: nat, n: nat)
    requires n > 0 && o <= |s|
    ensures Concat(MapSeq<nat, seq<T>>(SliceAt(s, n), RangeSeq(o, |s|, n))) == s[o..]
    decreases |s| - o
  {
    if o + n < |s| {
      ConcatSlicesStep(s, o, n);
      ConcatSlicesFrom(s, o + n, n);
      SliceThenRest(s, o, n);
    } else if o < |s| {
      ConcatSlicesLast(s, o, n);
    }
  }

  /** Reading every chunk at its offset and joining the pieces in order
      gives back the whole input: the chunks cover it exactly once, with no
      gap, no overlap and no reordering. */
  lemma ChunksRebuildInput<T>(s: seq<T>, n: nat)
    requires n > 0
    ensures Offsets(|s|, n).Ok?
    ensures Concat(MapSeq(SliceAt(s, n), Offsets(|s|, n).value)) == s
  {
    ConcatSlicesFrom(s, 0, n);
    assert s[0..] == s;
  }

  /** Position x lies in the chunk that starts at o. */
  predicate InChunk(x: int, o: int, step: nat)
  {
    o <= x < o + step
  }

  /** Position x lies in the chunk of one of the offsets. */
  predicate Covered(x: int, offs: seq<int>, step: nat)
  {
    exists k :: 0 <= k < |offs| && InChunk(x, offs[k], step)
  }

  /** The offsets of a partition with a positive step: they start at 0, each
      is the previous one plus the step, all are below total, and there are
      ceil(total / step) of them. */
  lemma OffsetsShape(total: nat, step: nat)
    requires step > 0
    ensures Offsets(total, step).Ok?
    ensures var offs := Offsets(total, step).value;
      && |offs| == CeilDiv(total, step)
      && (forall k :: 0 <= k < |offs| ==> offs[k] == k * step && offs[k] < total)
      && (forall k :: 0 <= k < |offs| - 1 ==> offs[k + 1] == offs[k] + step)
  {
    RangeUp(0, total, step);
    RangeCount(0, total, step);
  }

  lemma CoveredAt(x: nat, offs: seq<int>, step: nat)
    requires step > 0
    requires forall k :: 0 <= k < |offs| ==> offs[k] == k * step
    requires x < |offs| * step
    ensures Covered(x, offs, step)
  {
    var k := x / step;
    assert x == step * k + x % step;
    if k >= |offs| {
      MulMono(|offs|, k, step);
    }
    assert InChunk(x, offs[k], step);
  }

  lemma DisjointAt(x: int, offs: seq<int>, step: nat, j: nat, k: nat)
    requires step > 0 && j < k < |offs|
    requires offs[j] == j * step && offs[k] == k * step
    requires InChunk(x, offs[j], step)
    ensures !InChunk(x, offs[k], step)
  {
    MulMono(j + 1, k, step);
    assert (j + 1) * step == j * step + step;
  }

  /** Every position of [0, total) falls in the chunk of some offset, and in
      no other. */
  lemma OffsetsCover(total: nat, step: nat)
    requires step > 0
    ensures Offsets(total, step).Ok?
    ensures var offs := Offsets(total, step).value;
      && (forall x :: 0 <= x < total ==> Covered(x, offs, step))
      && (forall x, j, k :: 0 <= j < k < |offs| && InChunk(x, offs[j], step) ==> !InChunk(x, offs[k], step))
  {
    var offs := RangeSeq(0, total, step);
    RangeUp(0, total, step);
    forall x | 0 <= x < total
      ensures Covered(x, offs, step)
    {
      CoveredAt(x, offs, step);
    }
    forall x, j, k | 0 <= j < k < |offs| && InChunk(x, offs[j], step)
      ensures !InChunk(x, offs[k], step)
    {
      DisjointAt(x, offs, step, j, k);
    }
  }

  /** With chunk size ceil(total / workers) there are at most `workers`
      chunks. */
  lemma CeilChunkCount(total: nat, workers: nat)
    requires workers > 0 && total > 0
    ensures CeilDiv(total, workers) > 0
    ensures |RangeSeq(0, total, CeilDiv(total, workers))| <= workers
  {
    var cs := CeilDiv(total, workers);
    var offs := RangeSeq(0, total, cs);
    RangeUp(0, total, cs);
    assert offs[|offs| - 1] == (|offs| - 1) * cs < total;
    if |offs| > workers {
      MulMono(workers, |offs| - 1, cs);
    }
  }
}

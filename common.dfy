/** Values shared by every script: the Python exceptions the scripts can
    raise, a result type carrying them, bytes, and the sequential model of
    `Executor.map` (results in submission order). */
module Common {

  /** The Python exception classes the modelled code can raise. */
  datatype Error = ValueError | IndexError | ZeroDivisionError | OSError

  /** A value or the exception that replaced it. */
  datatype Result<T> = Ok(value: T) | Err(error: Error) {
    predicate IsFailure() { Err? }

    function PropagateFailure<U>(): Result<U>
      requires Err?
    {
      Err(error)
    }

    function Extract(): T
      requires Ok?
    {
      value
    }
  }

  /** A Python `bytes` element. */
  type byte = x: int | 0 <= x < 256

  /** The distinct characters of a string, `set(w)`. */
  function Chars(w: string): set<char>
  {
    set c | c in w
  }

  /** The builtin `min` of two integers. */
  function Min(a: int, b: int): (r: int)
    ensures r <= a && r <= b
    ensures r == a || r == b
  {
    if a <= b then a else b
  }

  /** The builtin `max` of two integers. */
  function Max(a: int, b: int): (r: int)
    ensures r >= a && r >= b
    ensures r == a || r == b
  {
    if a <= b then b else a
  }

  /** `math.ceil(a / b)` for a non-negative numerator and positive divisor. */
  function CeilDiv(a: nat, b: nat): (q: nat)
    requires b > 0
    ensures q * b >= a
    ensures q == 0 || (q - 1) * b < a
  {
    var q := (a + b - 1) / b;
    assert a + b - 1 == b * q + (a + b - 1) % b;
    q
  }

  /** Sum of a sequence (Python `sum`). */
  function Sum(s: seq<int>): int
  {
    if s == [] then 0 else Sum(s[..|s| - 1]) + s[|s| - 1]
  }

  lemma {:induction false} SumAppend(a: seq<int>, b: seq<int>)
    ensures Sum(a + b) == Sum(a) + Sum(b)
    decreases |b|
  {
    if b == [] {
      assert a + b == a;
    } else {
      assert (a + b)[..|a + b| - 1] == a + b[..|b| - 1];
      SumAppend(a, b[..|b| - 1]);
    }
  }

  /** Python `max` of a non-empty sequence. */
  function SeqMax(s: seq<int>): (m: int)
    requires |s| > 0
    ensures m in s
    ensures forall i :: 0 <= i < |s| ==> s[i] <= m
  {
    if |s| == 1 then s[0] else Max(s[0], SeqMax(s[1..]))
  }

  /** The maximum of a concatenation is the larger of the two maxima. */
  lemma SeqMaxAppend(a: seq<int>, b: seq<int>)
    requires |a| > 0 && |b| > 0
    ensures SeqMax(a + b) == Max(SeqMax(a), SeqMax(b))
  {
    var m := SeqMax(a + b);
    assert forall i :: 0 <= i < |a| ==> a[i] == (a + b)[i];
    assert forall i :: 0 <= i < |b| ==> b[i] == (a + b)[|a| + i];
    if m in a {
      assert m <= SeqMax(a);
    } else {
      assert m in b;
      assert m <= SeqMax(b);
    }
  }

  /** Flattening of a list of lists, in order. */
  function Concat<T>(ss: seq<seq<T>>): seq<T>
  {
    if ss == [] then [] else ss[0] + Concat(ss[1..])
  }

  lemma {:induction false} ConcatAppend<T>(a: seq<seq<T>>, b: seq<seq<T>>)
    ensures Concat(a + b) == Concat(a) + Concat(b)
    decreases |a|
  {
    if a == [] {
      assert a + b == b;
    } else {
      assert (a + b)[1..] == a[1..] + b;
      ConcatAppend(a[1..], b);
    }
  }

  lemma ConcatCons<T>(x: seq<T>, rest: seq<seq<T>>)
    ensures Concat([x] + rest) == x + Concat(rest)
  {
    assert ([x] + rest)[1..] == rest;
  }

  /** Every element of a flattening comes from one of the lists. */
  lemma {:induction false} ConcatMember<T>(ss: seq<seq<T>>, x: T)
    requires x in Concat(ss)
    ensures exists i :: 0 <= i < |ss| && x in ss[i]
    decreases |ss|
  {
    if x !in ss[0] {
      ConcatMember(ss[1..], x);
      var i :| 0 <= i < |ss[1..]| && x in ss[1..][i];
      assert x in ss[i + 1];
    }
  }

  /** `executor.map(f, xs)` for a work function that cannot fail: one
      result per item, in submission order. */
  function MapSeq<A, B>(f: A -> B, xs: seq<A>): (r: seq<B>)
    ensures |r| == |xs|
    ensures forall i {:trigger r[i]} :: 0 <= i < |xs| ==> r[i] == f(xs[i])
  {
    if xs == [] then [] else [f(xs[0])] + MapSeq(f, xs[1..])
  }

  lemma MapSeqCons<A, B>(f: A -> B, x: A, rest: seq<A>)
    ensures MapSeq(f, [x] + rest) == [f(x)] + MapSeq(f, rest)
  {
    assert ([x] + rest)[1..] == rest;
  }

  lemma SumMapCons<A>(f: A -> int, x: A, rest: seq<A>)
    ensures Sum(MapSeq(f, [x] + rest)) == f(x) + Sum(MapSeq(f, rest))
  {
    MapSeqCons(f, x, rest);
    SumAppend([f(x)], MapSeq(f, rest));
    assert [f(x)][..0] == [];
  }

  lemma SumMapFront<A>(f: A -> int, xs: seq<A>)
    requires xs != []
    ensures Sum(MapSeq(f, xs)) == f(xs[0]) + Sum(MapSeq(f, xs[1..]))
  {
    assert xs == [xs[0]] + xs[1..];
    SumMapCons(f, xs[0], xs[1..]);
  }

  /** Mapping a function that is 0 on every item and summing gives 0. */
  lemma {:induction false} SumMapZero<A>(f: A -> int, xs: seq<A>)
    requires forall i :: 0 <= i < |xs| ==> f(xs[i]) == 0
    ensures Sum(MapSeq(f, xs)) == 0
    decreases |xs|
  {
    if xs != [] {
      SumMapFront(f, xs);
      assert forall i :: 0 <= i < |xs[1..]| ==> xs[1..][i] == xs[i + 1];
      SumMapZero(f, xs[1..]);
    }
  }

  /** `list(executor.map(f, xs))` for a work function that may raise:
      iterating the results re-raises the exception of the first failing
      item in submission order; otherwise every result, in order. */
  function MapResults<A, B>(f: A -> Result<B>, xs: seq<A>): (r: Result<seq<B>>)
    ensures r.Ok? <==> forall i :: 0 <= i < |xs| ==> f(xs[i]).Ok?
    ensures r.Ok? ==> |r.value| == |xs| && forall i :: 0 <= i < |xs| ==> r.value[i] == f(xs[i]).value
    ensures r.Err? ==> exists i :: 0 <= i < |xs| && f(xs[i]) == Err(r.error) && forall j :: 0 <= j < i ==> f(xs[j]).Ok?
  {
    if xs == [] then Ok([])
    else
      match f(xs[0])
      case Err(e) => Err(e)
      case Ok(y) =>
        match MapResults(f, xs[1..])
        case Err(e) =>
          assert exists i :: 0 <= i < |xs[1..]| && f(xs[1..][i]) == Err(e) && forall j :: 0 <= j < i ==> f(xs[1..][j]).Ok?;
          var i :| 0 <= i < |xs[1..]| && f(xs[1..][i]) == Err(e) && forall j :: 0 <= j < i ==> f(xs[1..][j]).Ok?;
          assert f(xs[i + 1]) == Err(e);
          assert forall j :: 1 <= j < i + 1 ==> xs[j] == xs[1..][j - 1];
          Err(e)
        case Ok(ys) => Ok([y] + ys)
  }
}

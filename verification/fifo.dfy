/**
 Bounded first-in-first-out queues, as both analysis scripts use them: a Python
 list that is appended to and, when it has grown past its capacity, loses its
 first element (`append` followed by one `pop(0)`). The sliding windows of
 sensor readings and the population of dendritic cells are both such queues.
 */
module Fifo {

  datatype Option<T> = None | Some(value: T)

  function Min(a: nat, b: nat): (r: nat)
    ensures r <= a && r <= b
    ensures r == a || r == b
  {
    if a <= b then a else b
  }

  /** The `n` most recent elements of `xs`, oldest first. */
  function Last<T>(xs: seq<T>, n: nat): (r: seq<T>)
    ensures |r| == Min(|xs|, n)
    ensures forall i :: 0 <= i < |r| ==> r[i] == xs[|xs| - |r| + i]
  {
    if |xs| <= n then xs else xs[|xs| - n..]
  }

  /**
   Appends `x` to `q`; if the queue is then longer than `cap`, its oldest
   element is removed and handed back. Nothing is lost and nothing is
   reordered: the evicted element followed by the new queue is exactly
   `q + [x]`.
   */
  function Offer<T>(q: seq<T>, x: T, cap: nat): (r: (seq<T>, Option<T>))
    ensures r.1.Some? <==> |q| + 1 > cap
    ensures r.1.None? ==> r.0 == q + [x]
    ensures r.1.Some? ==> [r.1.value] + r.0 == q + [x]
    ensures |q| <= cap ==> |r.0| <= cap
    ensures cap >= 1 ==> |r.0| >= 1 && r.0[|r.0| - 1] == x
  {
    var grown := q + [x];
    if |grown| > cap then (grown[1..], Some(grown[0])) else (grown, None)
  }

  /** `Offer` when the evicted element is of no interest (a sliding window). */
  function Push<T>(q: seq<T>, x: T, cap: nat): (r: seq<T>)
    ensures |q| <= cap ==> |r| <= cap
    ensures cap >= 1 ==> |r| >= 1 && r[|r| - 1] == x
  {
    Offer(q, x, cap).0
  }

  lemma {:induction false} SnocLast<T>(xs: seq<T>)
    requires |xs| > 0
    ensures xs[..|xs| - 1] + [xs[|xs| - 1]] == xs
  {
  }

  lemma {:induction false} TakeTake<T>(xs: seq<T>, m: nat, n: nat)
    requires n <= m <= |xs|
    ensures xs[..m][..n] == xs[..n]
  {
  }

  /** Pushing onto the last `n` elements of a stream gives the last `n` elements of the longer stream. */
  lemma {:induction false} PushLast<T>(xs: seq<T>, x: T, n: nat)
    ensures Push(Last(xs, n), x, n) == Last(xs + [x], n)
  {
    var ys := xs + [x];
    if |xs| >= n {
      assert Last(xs, n) + [x] == xs[|xs| - n..] + [x];
      if n == 0 {
        assert Last(ys, n) == [];
      } else {
        assert (xs[|xs| - n..] + [x])[1..] == ys[|ys| - n..];
      }
    } else {
      assert Last(xs, n) == xs;
      assert Last(ys, n) == ys;
    }
  }
}

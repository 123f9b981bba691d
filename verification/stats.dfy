/**
 Exact real-valued statistics over a window of readings: sum, mean and
 population variance (dividing by the current length, not by the capacity),
 and a generic sum of a per-element quantity over a range of indices, used
 for cell accumulators.
 */
module Stats {

  import opened Reals

  /** Sum of the elements, accumulated oldest first. */
  function Sum(s: seq<real>): real
  {
    if s == [] then 0.0 else Sum(s[..|s| - 1]) + s[|s| - 1]
  }

  /** Sum of `f` over `xs[lo..hi]`, accumulated in index order. */
  function SumOver<T>(xs: seq<T>, lo: nat, hi: nat, f: T -> real): real
    requires lo <= hi <= |xs|
    decreases hi - lo
  {
    if lo == hi then 0.0 else SumOver(xs, lo, hi - 1, f) + f(xs[hi - 1])
  }

  /** Arithmetic mean; a window is never empty when its mean is taken. */
  function Mean(s: seq<real>): real
    requires |s| > 0
  {
    Sum(s) / |s| as real
  }

  /** Sum of squared deviations of the elements from `mu` (which need not be their mean). */
  function SqDev(s: seq<real>, mu: real): real
  {
    if s == [] then 0.0 else SqDev(s[..|s| - 1], mu) + Sq(s[|s| - 1] - mu)
  }

  /** Population variance: mean squared deviation from the window's own mean. */
  function Variance(s: seq<real>): real
    requires |s| > 0
  {
    SqDev(s, Mean(s)) / |s| as real
  }

  ghost predicate Constant(s: seq<real>)
  {
    forall i, j :: 0 <= i < |s| && 0 <= j < |s| ==> s[i] == s[j]
  }

  /** Appending to a sequence does not change a sum over a range of it. */
  lemma {:induction false} SumOverSnoc<T>(xs: seq<T>, x: T, lo: nat, hi: nat, f: T -> real)
    requires lo <= hi <= |xs|
    ensures SumOver(xs + [x], lo, hi, f) == SumOver(xs, lo, hi, f)
  {
    if lo < hi {
      SumOverSnoc(xs, x, lo, hi - 1, f);
      assert (xs + [x])[hi - 1] == xs[hi - 1];
    }
  }

  /** A sum up to the end of a sequence grows by the appended element. */
  lemma {:induction false} SumOverExtend<T>(xs: seq<T>, x: T, lo: nat, f: T -> real)
    requires lo <= |xs|
    ensures SumOver(xs + [x], lo, |xs| + 1, f) == SumOver(xs, lo, |xs|, f) + f(x)
  {
    SumOverSnoc(xs, x, lo, |xs|, f);
  }

  /** A sum over a range only depends on the elements in the range. */
  lemma {:induction false} SumOverPrefix<T>(xs: seq<T>, n: nat, lo: nat, hi: nat, f: T -> real)
    requires lo <= hi <= n <= |xs|
    ensures SumOver(xs[..n], lo, hi, f) == SumOver(xs, lo, hi, f)
  {
    if lo < hi {
      SumOverPrefix(xs, n, lo, hi - 1, f);
      assert xs[..n][hi - 1] == xs[hi - 1];
    }
  }

  /** A window whose every element is `c` sums to `|s|·c`. */
  lemma {:induction false} SumConstant(s: seq<real>, c: real)
    requires forall i :: 0 <= i < |s| ==> s[i] == c
    ensures Sum(s) == |s| as real * c
  {
    if s != [] {
      SumConstant(s[..|s| - 1], c);
    }
  }

  /** Summing a quantity that is `c` on every element of a range gives the range's length times `c`. */
  lemma {:induction false} SumOverConstant<T>(xs: seq<T>, lo: nat, hi: nat, f: T -> real, c: real)
    requires lo <= hi <= |xs|
    requires forall i :: lo <= i < hi ==> f(xs[i]) == c
    ensures SumOver(xs, lo, hi, f) == (hi - lo) as real * c
  {
    if lo < hi {
      SumOverConstant(xs, lo, hi - 1, f, c);
    }
  }

  /** A sum of squares is never negative. */
  lemma {:induction false} SqDevNonNegative(s: seq<real>, mu: real)
    ensures SqDev(s, mu) >= 0.0
  {
    if s != [] {
      SqDevNonNegative(s[..|s| - 1], mu);
    }
  }

  /** The squared deviation from `mu` vanishes exactly when every element equals `mu`. */
  lemma {:induction false} SqDevZeroIff(s: seq<real>, mu: real)
    ensures SqDev(s, mu) == 0.0 <==> forall i :: 0 <= i < |s| ==> s[i] == mu
  {
    if s != [] {
      var init := s[..|s| - 1];
      SqDevZeroIff(init, mu);
      SqDevNonNegative(init, mu);
      if SqDev(s, mu) == 0.0 {
        var d := s[|s| - 1] - mu;
        assert Sq(d) == 0.0 && SqDev(init, mu) == 0.0;
        SqZero(d);
        assert forall i :: 0 <= i < |init| ==> init[i] == mu;
        forall i | 0 <= i < |s|
          ensures s[i] == mu
        {
          if i < |s| - 1 {
            assert s[i] == init[i];
          }
        }
      }
      if forall i :: 0 <= i < |s| ==> s[i] == mu {
        assert forall i :: 0 <= i < |init| ==> init[i] == s[i];
      }
    }
  }

  /** Mean of a non-empty window is positive exactly when its sum is. */
  lemma {:induction false} MeanPositiveIffSumPositive(s: seq<real>)
    requires |s| > 0
    ensures Mean(s) > 0.0 <==> Sum(s) > 0.0
    ensures Sum(s) == |s| as real * Mean(s)
  {
  }

  /** Population variance is never negative. */
  lemma {:induction false} VarianceNonNegative(s: seq<real>)
    requires |s| > 0
    ensures Variance(s) >= 0.0
  {
    SqDevNonNegative(s, Mean(s));
  }

  /** The mean of a constant window is that constant. */
  lemma {:induction false} MeanOfConstant(s: seq<real>, c: real)
    requires |s| > 0
    requires forall i :: 0 <= i < |s| ==> s[i] == c
    ensures Mean(s) == c
  {
    SumConstant(s, c);
  }

  /**
   Population variance is zero exactly when all entries of the window are
   equal (in both directions).
   */
  lemma {:induction false} VarianceZeroIffConstant(s: seq<real>)
    requires |s| > 0
    ensures Variance(s) == 0.0 <==> Constant(s)
  {
    var mu := Mean(s);
    SqDevZeroIff(s, mu);
    if Constant(s) {
      MeanOfConstant(s, s[0]);
      assert forall i :: 0 <= i < |s| ==> s[i] == s[0];
    }
    if Variance(s) == 0.0 {
      assert SqDev(s, mu) == 0.0;
    }
  }
}

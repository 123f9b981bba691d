/**
 The safe signal of the dDCA in the testbed analysis script: for each of the
 four readings, the standard deviation of its sliding window normalised by a
 mean, the four terms summed and clamped to [0,1].

 `AsWritten` is the code as it stands: the air-temperature term is divided by
 the window's sum, and the air-humidity term is measured from and divided by
 the air-temperature mean. `Corrected` uses each window's own mean throughout.
 */
module DDcaSafe {

  import opened Reals
  import opened Stats
  import opened SlidingWindow
  import opened Signals

  /** Whether the safe terms are computed as written or with the evidently intended windows. */
  datatype SafeMode = AsWritten | Corrected

  /** `sigma/mu if mu > 0 else 0`. */
  function Ratio(sigma: real, mu: real): (r: real)
    ensures mu <= 0.0 ==> r == 0.0
    ensures sigma >= 0.0 ==> r >= 0.0
  {
    if mu > 0.0 then sigma / mu else 0.0
  }

  /** A positive normaliser scales the ratio back to the deviation. */
  lemma {:induction false} RatioScalesBack(sigma: real, mu: real)
    requires mu > 0.0
    ensures Ratio(sigma, mu) * mu == sigma
  {
  }

  /** `min(max(x, 0), 1)`. */
  function Clamp01(x: real): (r: real)
    ensures 0.0 <= r <= 1.0
    ensures 0.0 <= x <= 1.0 ==> r == x
  {
    if x < 0.0 then 0.0 else if x > 1.0 then 1.0 else x
  }

  /**
   The value the deviation of quantity `q` is measured from. As written, the
   air-humidity deviation is measured from the mean of the air-temperature
   window.
   */
  function Centre(mode: SafeMode, w: Windows, q: Quantity): real
    requires w.Ready()
  {
    if mode == AsWritten && q == HAir then Mean(w.tAir) else Mean(w.Get(q))
  }

  /**
   The value that normalises the deviation of `q`. As written, the
   air-temperature deviation is divided by the window's sum (the variable that
   should hold its mean is overwritten by a running sum) and the air-humidity
   deviation by the air-temperature mean.
   */
  function Scale(mode: SafeMode, w: Windows, q: Quantity): real
    requires w.Ready()
  {
    if mode == AsWritten && q == TAir then Sum(w.tAir)
    else if mode == AsWritten && q == HAir then Mean(w.tAir)
    else Mean(w.Get(q))
  }

  /** Root mean squared deviation of the window of `q` from its centre. */
  function Deviation(m: Elementary, mode: SafeMode, w: Windows, q: Quantity): real
    requires w.Ready()
  {
    m.sqrt(SqDev(w.Get(q), Centre(mode, w, q)) / |w.Get(q)| as real)
  }

  /** The per-quantity safe term `safe1_t` .. `safe4_t`. */
  function Term(m: Elementary, mode: SafeMode, w: Windows, q: Quantity): (r: real)
    requires w.Ready()
    ensures Scale(mode, w, q) <= 0.0 ==> r == 0.0
  {
    Ratio(Deviation(m, mode, w, q), Scale(mode, w, q))
  }

  function TermSum(m: Elementary, mode: SafeMode, w: Windows): real
    requires w.Ready()
  {
    Term(m, mode, w, TAir) + Term(m, mode, w, TSoil) + Term(m, mode, w, HAir) + Term(m, mode, w, HSoil)
  }

  /** The fused safe signal, clamped to [0,1]. */
  function Safe(m: Elementary, mode: SafeMode, w: Windows): (r: real)
    requires w.Ready()
    ensures 0.0 <= r <= 1.0
    ensures 0.0 <= TermSum(m, mode, w) <= 1.0 ==> r == TermSum(m, mode, w)
  {
    Clamp01(TermSum(m, mode, w))
  }
  // ---------------------------------------------------------------- safe signal properties

  /** With a sound square root every safe term is non-negative. */
  lemma {:induction false} TermNonNegative(m: Elementary, mode: SafeMode, w: Windows, q: Quantity)
    requires m.Sound() && w.Ready()
    ensures Term(m, mode, w, q) >= 0.0
  {
    SqDevNonNegative(w.Get(q), Centre(mode, w, q));
  }

  /** So the lower clamp of the safe signal never applies: safe is `min(sum of terms, 1)`. */
  lemma {:induction false} SafeIsCappedTermSum(m: Elementary, mode: SafeMode, w: Windows)
    requires m.Sound() && w.Ready()
    ensures TermSum(m, mode, w) >= 0.0
    ensures Safe(m, mode, w) == if TermSum(m, mode, w) > 1.0 then 1.0 else TermSum(m, mode, w)
  {
    TermNonNegative(m, mode, w, TAir);
    TermNonNegative(m, mode, w, TSoil);
    TermNonNegative(m, mode, w, HAir);
    TermNonNegative(m, mode, w, HSoil);
  }

  /**
   A corrected safe term is the coefficient of variation of its own window:
   scaled back by a positive window mean it is the window's standard deviation,
   and it depends on no other window.
   */
  lemma {:induction false} CorrectedTermIsCoefficientOfVariation(m: Elementary, w: Windows, w': Windows, q: Quantity)
    requires w.Ready() && w'.Ready()
    ensures Mean(w.Get(q)) > 0.0 ==> Term(m, Corrected, w, q) * Mean(w.Get(q)) == m.sqrt(Variance(w.Get(q)))
    ensures Mean(w.Get(q)) <= 0.0 ==> Term(m, Corrected, w, q) == 0.0
    ensures w.Get(q) == w'.Get(q) ==> Term(m, Corrected, w, q) == Term(m, Corrected, w', q)
  {
    if Mean(w.Get(q)) > 0.0 {
      RatioScalesBack(Deviation(m, Corrected, w, q), Mean(w.Get(q)));
    }
  }

  /**
   A corrected safe term vanishes exactly when its window is constant or has
   a non-positive mean.
   */
  lemma {:induction false} CorrectedTermZeroIff(m: Elementary, w: Windows, q: Quantity)
    requires m.Sound() && w.Ready()
    ensures Term(m, Corrected, w, q) == 0.0 <==> Constant(w.Get(q)) || Mean(w.Get(q)) <= 0.0
  {
    var s := w.Get(q);
    var sigma := Deviation(m, Corrected, w, q);
    VarianceNonNegative(s);
    VarianceZeroIffConstant(s);
    assert sigma == m.sqrt(Variance(s));
    assert sigma == 0.0 <==> Variance(s) == 0.0;
    if Mean(s) > 0.0 {
      RatioScalesBack(sigma, Mean(s));
    }
  }

  /**
   The corrected safe signal is zero exactly when every window is constant or
   has a non-positive mean: steady readings give no safe signal.
   */
  lemma {:induction false} CorrectedSafeZeroIff(m: Elementary, w: Windows)
    requires m.Sound() && w.Ready()
    ensures Safe(m, Corrected, w) == 0.0 <==> forall q :: Constant(w.Get(q)) || Mean(w.Get(q)) <= 0.0
  {
    SafeIsCappedTermSum(m, Corrected, w);
    TermNonNegative(m, Corrected, w, TAir);
    TermNonNegative(m, Corrected, w, TSoil);
    TermNonNegative(m, Corrected, w, HAir);
    TermNonNegative(m, Corrected, w, HSoil);
    CorrectedTermZeroIff(m, w, TAir);
    CorrectedTermZeroIff(m, w, TSoil);
    CorrectedTermZeroIff(m, w, HAir);
    CorrectedTermZeroIff(m, w, HSoil);
    if forall q :: Constant(w.Get(q)) || Mean(w.Get(q)) <= 0.0 {
    } else {
      var q :| !(Constant(w.Get(q)) || Mean(w.Get(q)) <= 0.0);
      assert Term(m, Corrected, w, q) > 0.0;
    }
  }

  // ---------------------------------------------------------------- the code as written

  /**
   As written, the air-temperature term is divided by the window's sum instead
   of its mean, so it is the corrected term shrunk by the window length.
   */
  lemma {:induction false} AsWrittenTAirTermScaledByLength(m: Elementary, w: Windows)
    requires w.Ready()
    ensures Term(m, AsWritten, w, TAir) * |w.tAir| as real == Term(m, Corrected, w, TAir)
  {
    var n := |w.tAir| as real;
    var sigma := Deviation(m, Corrected, w, TAir);
    assert Deviation(m, AsWritten, w, TAir) == sigma;
    MeanPositiveIffSumPositive(w.tAir);
    if Sum(w.tAir) > 0.0 {
      var mu := Mean(w.tAir);
      calc {
        Term(m, AsWritten, w, TAir) * n;
      ==
        (sigma / Sum(w.tAir)) * n;
      == { assert Sum(w.tAir) == n * mu; }
        (sigma / (n * mu)) * n;
      ==
        sigma / mu;
      ==
        Term(m, Corrected, w, TAir);
      }
    }
  }

  /** Windows whose air-temperature readings 1 and 3 make the two air-temperature terms differ. */
  lemma {:induction false} AsWrittenTAirTermCounterexample(m: Elementary)
    requires m.Sound()
    ensures var w := Windows([1.0, 3.0], [0.0], [0.0], [0.0]);
            0.0 < Term(m, AsWritten, w, TAir) < Term(m, Corrected, w, TAir)
  {
    var w := Windows([1.0, 3.0], [0.0], [0.0], [0.0]);
    assert Sum(w.tAir) == 4.0 by {
      assert w.tAir[..1] == [1.0];
      assert [1.0][..0] == [];
    }
    assert Mean(w.tAir) == 2.0;
    assert SqDev(w.tAir, 2.0) == 2.0 by {
      assert w.tAir[..1] == [1.0];
      assert [1.0][..0] == [];
    }
    assert Deviation(m, Corrected, w, TAir) == m.sqrt(1.0);
    assert m.sqrt(1.0) > 0.0;
    AsWrittenTAirTermScaledByLength(m, w);
  }

  /**
   As written, the air-humidity deviation is measured from, and divided by,
   the air-temperature mean: perfectly steady readings still produce a safe
   signal, which the corrected computation does not.
   */
  lemma {:induction false} AsWrittenHAirCounterexample(m: Elementary)
    requires m.Sound()
    ensures var w := Windows([20.0], [0.0], [50.0], [0.0]);
            Safe(m, AsWritten, w) > 0.0 && Safe(m, Corrected, w) == 0.0
  {
    var w := Windows([20.0], [0.0], [50.0], [0.0]);
    assert [20.0][..0] == [] && [0.0][..0] == [] && [50.0][..0] == [];
    assert Mean(w.tAir) == 20.0 && Mean(w.hAir) == 50.0;
    assert SqDev(w.hAir, 20.0) == 900.0;
    assert m.sqrt(900.0) > 0.0;
    assert Term(m, AsWritten, w, HAir) > 0.0;
    SafeIsCappedTermSum(m, AsWritten, w);
    TermNonNegative(m, AsWritten, w, TAir);
    TermNonNegative(m, AsWritten, w, TSoil);
    TermNonNegative(m, AsWritten, w, HSoil);
    CorrectedSafeZeroIff(m, w);
    forall q
      ensures Constant(w.Get(q))
    {
    }
  }

  /** A term whose window and the air-temperature window hold only zeros is zero: its normaliser is zero. */
  lemma {:induction false} ZeroWindowTerm(m: Elementary, mode: SafeMode, w: Windows, q: Quantity)
    requires w.Ready()
    requires forall i :: 0 <= i < |w.tAir| ==> w.tAir[i] == 0.0
    requires forall i :: 0 <= i < |w.Get(q)| ==> w.Get(q)[i] == 0.0
    ensures Term(m, mode, w, q) == 0.0
  {
    SumConstant(w.tAir, 0.0);
    SumConstant(w.Get(q), 0.0);
    assert Scale(mode, w, q) == 0.0;
  }

  /** All-zero readings give no safe signal, in either mode and for any square root. */
  lemma {:induction false} ZeroWindowsSafe(m: Elementary, mode: SafeMode, w: Windows)
    requires w.Ready()
    requires forall q, i :: 0 <= i < |w.Get(q)| ==> w.Get(q)[i] == 0.0
    ensures Safe(m, mode, w) == 0.0
  {
    assert w.Get(TAir) == w.tAir;
    ZeroWindowTerm(m, mode, w, TAir);
    ZeroWindowTerm(m, mode, w, TSoil);
    ZeroWindowTerm(m, mode, w, HAir);
    ZeroWindowTerm(m, mode, w, HSoil);
  }
}

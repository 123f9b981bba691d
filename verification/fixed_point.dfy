/**
 Sign-magnitude 16-bit fixed-point numbers, the alternative antigen encoding of
 the analysis script: bit 15 is the sign, the low 15 bits hold the magnitude
 scaled by 2^fBits (6 fractional bits in the script's `_10to6` wrappers).

 The script works on Python integers of unbounded width. For those, `v & 0x7FFF`
 is the Euclidean remainder `v % 0x8000` and `v & 0x8000` is non-zero exactly
 when `v / 0x8000` (floor division) is odd; both also hold for negative `v`, so
 the decoder below accepts every integer, as the script does.
 */
module FixedPoint {

  import opened Reals

  const SignBit: int := 0x8000
  const WordSize: int := 0x10000

  function Pow2(n: nat): (r: nat)
    ensures r >= 1
  {
    if n == 0 then 1 else 2 * Pow2(n - 1)
  }

  /** Python's `int()` on a float: truncation toward zero. */
  function Trunc(x: real): (r: int)
    ensures x >= 0.0 ==> r as real <= x < r as real + 1.0
    ensures x <= 0.0 ==> r as real - 1.0 < x <= r as real
  {
    if x >= 0.0 then x.Floor else -((-x).Floor)
  }

  /** `value & 0x7FFF`: the magnitude field. */
  function LowBits(value: int): (r: int)
    ensures 0 <= r < SignBit
  {
    value % SignBit
  }

  /** `value & 0x8000` is non-zero: the sign bit. */
  predicate SignSet(value: int)
  {
    (value / SignBit) % 2 == 1
  }

  /** A real magnitude scaled up by 2^fBits. */
  function Scaled(x: real, fBits: nat): real
  {
    x * Pow2(fBits) as real
  }

  /** An integer magnitude field scaled down by 2^fBits. */
  function Unscaled(n: int, fBits: nat): real
  {
    n as real / Pow2(fBits) as real
  }

  /** Scaling down and back up is the identity on magnitude fields. */
  lemma {:induction false} ScaledUnscaled(n: int, fBits: nat)
    ensures Scaled(Unscaled(n, fBits), fBits) == n as real
    ensures n >= 0 ==> Unscaled(n, fBits) >= 0.0
    ensures Unscaled(n, fBits) == 0.0 <==> n == 0
  {
    var p := Pow2(fBits) as real;
    calc {
      Scaled(Unscaled(n, fBits), fBits);
    ==
      (n as real / p) * p;
    ==
      n as real;
    }
  }

  /**
   If the scaled magnitude of `a` lies in [m, m+1), then `a` lies within one
   step 2^-fBits above the magnitude field m scaled down.
   */
  lemma {:induction false} UnscaleBounds(a: real, m: int, fBits: nat)
    requires m as real <= Scaled(a, fBits) < m as real + 1.0
    ensures Unscaled(m, fBits) <= a < Unscaled(m, fBits) + 1.0 / Pow2(fBits) as real
  {
    var p := Pow2(fBits) as real;
    var sa := a * p;
    assert m as real <= sa < m as real + 1.0;
    calc {
      Unscaled(m, fBits);
    ==
      m as real / p;
    <=
      sa / p;
    ==
      a;
    }
    calc {
      a;
    ==
      sa / p;
    <
      (m as real + 1.0) / p;
    ==
      m as real / p + 1.0 / p;
    ==
      Unscaled(m, fBits) + 1.0 / p;
    }
  }

  /**
   `fixed16_to_float`: the magnitude field divided by 2^fBits, negated when the
   sign bit is set.
   */
  function ToReal(value: int, fBits: nat): (r: real)
    ensures SignSet(value) ==> r <= 0.0
    ensures !SignSet(value) ==> r >= 0.0
    ensures Scaled(Abs(r), fBits) == LowBits(value) as real
  {
    var mag := Unscaled(LowBits(value), fBits);
    ScaledUnscaled(LowBits(value), fBits);
    if SignSet(value) then -mag else mag
  }

  /**
   `float_to_fixed16`: a 16-bit word whose sign bit is set exactly for negative
   inputs and whose magnitude field is the truncated scaled magnitude, wrapped
   to 15 bits.
   */
  function FromReal(value: real, fBits: nat): (r: int)
    ensures 0 <= r < WordSize
    ensures SignSet(r) <==> value < 0.0
    ensures LowBits(r) == Trunc(Scaled(Abs(value), fBits)) % SignBit
  {
    var sign := if value < 0.0 then SignBit else 0;
    // `sign | low` is `sign + low` because `low` fits below the sign bit
    sign + Trunc(Scaled(Abs(value), fBits)) % SignBit
  }

  /**
   Every 16-bit word except the negative zero 0x8000 survives a decode followed
   by an encode unchanged.
   */
  lemma {:induction false} DecodeEncode(w: int, fBits: nat)
    requires 0 <= w < WordSize && w != SignBit
    ensures FromReal(ToReal(w, fBits), fBits) == w
  {
    var low := LowBits(w);
    var v := ToReal(w, fBits);
    assert Trunc(low as real) == low;
    assert low % SignBit == low;
    if SignSet(w) {
      assert w == SignBit + low;
      assert v != 0.0 by {
        ScaledUnscaled(low, fBits);
      }
    } else {
      assert w == low;
    }
  }

  /** The negative zero 0x8000 decodes to zero, which encodes as 0x0000. */
  lemma {:induction false} NegativeZero(fBits: nat)
    ensures ToReal(SignBit, fBits) == 0.0
    ensures FromReal(0.0, fBits) == 0
  {
    assert LowBits(SignBit) == 0;
    ScaledUnscaled(0, fBits);
    assert Scaled(0.0, fBits) == 0.0;
  }

  /**
   Encoding then decoding a value whose scaled magnitude fits in 15 bits keeps
   its sign and truncates its magnitude toward zero to a multiple of 2^-fBits.
   */
  lemma {:induction false} EncodeDecodeTruncates(v: real, fBits: nat)
    requires Scaled(Abs(v), fBits) < SignBit as real
    ensures var d := ToReal(FromReal(v, fBits), fBits);
            && (v < 0.0 ==> d <= 0.0)
            && (v >= 0.0 ==> d >= 0.0)
            && Abs(d) <= Abs(v) < Abs(d) + 1.0 / Pow2(fBits) as real
  {
    var w := FromReal(v, fBits);
    var d := ToReal(w, fBits);
    var m := Trunc(Scaled(Abs(v), fBits));
    assert Scaled(Abs(v), fBits) >= 0.0;
    assert 0 <= m < SignBit;
    assert LowBits(w) == m;
    ScaledUnscaled(m, fBits);
    assert Abs(d) == Unscaled(m, fBits) by {
      assert Abs(d) == Unscaled(LowBits(w), fBits);
    }
    UnscaleBounds(Abs(v), m, fBits);
  }
}

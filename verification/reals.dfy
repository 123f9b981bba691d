/** Elementary facts about real numbers shared by the other modules. */
module Reals {

  function Abs(x: real): (r: real)
    ensures r >= 0.0
    ensures r == x || r == -x
  {
    if x < 0.0 then -x else x
  }

  function Max(a: real, b: real): (r: real)
    ensures r >= a && r >= b
    ensures r == a || r == b
  {
    if a >= b then a else b
  }

  function Sq(x: real): (r: real)
    ensures r >= 0.0
  {
    x * x
  }

  /** A square vanishes only at zero. */
  lemma {:induction false} SqZero(x: real)
    ensures Sq(x) == 0.0 <==> x == 0.0
  {
    if x < 0.0 {
      calc { Sq(x); == x * x; == (-x) * (-x); > 0.0; }
    } else if x > 0.0 {
      calc { Sq(x); == x * x; > 0.0; }
    }
  }

  /** `n/d` for a part `n` of a positive whole `d`. */
  function Proportion(n: nat, d: nat): (q: real)
    requires n <= d && d > 0
    ensures q * d as real == n as real
    ensures 0.0 <= q <= 1.0
    ensures q == 1.0 <==> n == d
    ensures q == 0.0 <==> n == 0
  {
    Fraction(n, d);
    n as real / d as real
  }

  /** The fraction `n/d` of a part `n` of a positive whole `d` lies in [0,1], with both ends reached only at the ends. */
  lemma {:induction false} Fraction(n: nat, d: nat)
    requires n <= d && d > 0
    ensures var q := n as real / d as real;
            && q * d as real == n as real
            && 0.0 <= q <= 1.0
            && (q == 1.0 <==> n == d)
            && (q == 0.0 <==> n == 0)
  {
    var q := n as real / d as real;
    var gap := (d - n) as real;
    assert (1.0 - q) * d as real == gap;
    if n < d {
      assert 1.0 - q > 0.0 by {
        assert gap > 0.0;
        assert (1.0 - q) * d as real > 0.0;
      }
    }
  }
}

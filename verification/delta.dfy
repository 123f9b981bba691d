/**
 The relative-difference guard of the analysis script (`get_delta`): how far
 `v2` lies from the reference `v1`, as a fraction of `|v1|`, with zero returned
 instead of dividing by a zero reference.
 */
module RelativeDelta {

  import opened Reals

  /**
   `get_delta(v1, v2)`. The result is never negative, is zero exactly when the
   two values agree or the reference is zero, and otherwise scales back to the
   absolute difference.
   */
  function GetDelta(v1: real, v2: real): (r: real)
    ensures r >= 0.0
    ensures r == 0.0 <==> v1 == v2 || v1 == 0.0
    ensures v1 != 0.0 ==> r * Abs(v1) == Abs(v1 - v2)
  {
    if v1 == v2 then 0.0
    else if v1 == 0.0 then 0.0
    else
      var q := (v1 - v2) / v1;
      assert q * v1 == v1 - v2;
      assert q != 0.0;
      Abs(q)
  }
}

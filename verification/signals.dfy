/**
 Signal fusion shared by both scripts: the eight fault indicators of a record,
 the two danger signals built from them, and the elementary functions the
 safe signals need.
 */
module Signals {

  /** The eight fault indicators of a record, each normalised to [0,1] upstream. */
  datatype Indicators = Indicators(
    nt: real, vs: real, bat: real, art: real,
    rst: real, ic: real, adc: real, usart: real)
  {
    predicate Normalized()
    {
      && 0.0 <= nt <= 1.0 && 0.0 <= vs <= 1.0 && 0.0 <= bat <= 1.0 && 0.0 <= art <= 1.0
      && 0.0 <= rst <= 1.0 && 0.0 <= ic <= 1.0 && 0.0 <= adc <= 1.0 && 0.0 <= usart <= 1.0
    }

    predicate AllZero()
    {
      nt == 0.0 && vs == 0.0 && bat == 0.0 && art == 0.0
      && rst == 0.0 && ic == 0.0 && adc == 0.0 && usart == 0.0
    }
  }

  /**
   Danger of the testbed script: the plain sum of the eight indicators, with
   no cap. For normalised indicators it lies in [0,8], vanishes exactly when no
   indicator fires, and is at least every single indicator.
   */
  function UncappedDanger(x: Indicators): (r: real)
    ensures x.Normalized() ==> 0.0 <= r <= 8.0
    ensures x.Normalized() ==> (r == 0.0 <==> x.AllZero())
    ensures x.Normalized() ==> r >= x.nt && r >= x.vs && r >= x.bat && r >= x.art
    ensures x.Normalized() ==> r >= x.rst && r >= x.ic && r >= x.adc && r >= x.usart
  {
    x.nt + x.vs + x.bat + x.art + x.rst + x.ic + x.adc + x.usart
  }

  /**
   Danger of the experiment script: `min(1, sum)`. It never exceeds 1, equals 1
   exactly when the indicator sum reaches 1, and is the sum itself below that.
   */
  function CappedDanger(x: Indicators): (r: real)
    ensures r <= 1.0
    ensures r == 1.0 <==> UncappedDanger(x) >= 1.0
    ensures UncappedDanger(x) <= 1.0 ==> r == UncappedDanger(x)
    ensures x.Normalized() ==> 0.0 <= r
  {
    var sum := UncappedDanger(x);
    if sum < 1.0 then sum else 1.0
  }

  /**
   The square root and exponential the scripts take from Python's `math`
   module. They are parameters of the model; `Sound` lists the only facts about
   them the proofs rely on.
   */
  datatype Elementary = Elementary(sqrt: real -> real, exp: real -> real)
  {
    ghost predicate Sound()
    {
      && sqrt(0.0) == 0.0
      && (forall x :: x > 0.0 ==> sqrt(x) > 0.0)
      && exp(0.0) == 1.0
      && (forall x :: x < 0.0 ==> 0.0 < exp(x) < 1.0)
    }
  }
}

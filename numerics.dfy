/** The few facts about the programs' `double` arithmetic that the models rely on,
    stated over exact reals. */
module Numerics {

  /** `numeric_limits<double>::max()`, that is (2^53 - 1) * 2^971, written out exactly. */
  const DoubleMax: real := 179769313486231570814527423731704356798070567525844996598917476803157260780028538760589558632766878171540458953514382464234321326889464182768467546703537516986049910576551282076245490090389328944075868508455133942304583236903222948165808559332123348274797826204144723168738177180919299881250404026184124858368.0

  /** The result of a final division by a sample count. Dividing 0.0 by the
      count 0.0 gives NaN in IEEE arithmetic; every other count gives a value. */
  datatype Quotient = Value(v: real) | NotANumber

  /** `numerator / double(count)`. A zero count gives NaN: in all three programs the
      numerator is 0 whenever the count is, so a zero count never produces an infinity. */
  function Divide(numerator: real, count: nat): (q: Quotient)
    ensures q.NotANumber? <==> count == 0
  {
    if count == 0 then NotANumber else Value(numerator / count as real)
  }

  /** `scale * double(k) / double(n)`: a known measure scaled by the fraction k/n
      of accepted samples. */
  function ScaleByFraction(scale: real, k: nat, n: nat): (q: Quotient)
    ensures q.NotANumber? <==> n == 0
  {
    Divide(scale * k as real, n)
  }

  /** Scaling a known measure by the fraction k/n of accepted samples never leaves [0, scale]. */
  lemma FractionWithinScale(scale: real, k: nat, n: nat)
    requires 0 < n && k <= n && 0.0 <= scale
    ensures 0.0 <= ScaleByFraction(scale, k, n).v <= scale
  {
    var q := ScaleByFraction(scale, k, n).v;
    assert q * n as real == scale * k as real;
    assert scale * k as real <= scale * n as real by {
      assert scale * (n - k) as real >= 0.0;
    }
    assert (scale - q) * n as real == scale * (n - k) as real;
  }

  /** The scaled fraction is monotone in the number of accepted samples. */
  lemma FractionMonotone(scale: real, k1: nat, k2: nat, n: nat)
    requires 0 < n && k1 <= k2 && 0.0 <= scale
    ensures ScaleByFraction(scale, k1, n).v <= ScaleByFraction(scale, k2, n).v
  {
    var q1, q2 := ScaleByFraction(scale, k1, n).v, ScaleByFraction(scale, k2, n).v;
    assert (q2 - q1) * n as real == scale * (k2 - k1) as real;
    assert scale * (k2 - k1) as real >= 0.0;
  }

  /** Two accepted-sample counts h2 <= h1 <= n scale to 0 <= q2 <= q1 <= scale. */
  lemma ScaledCountsOrdered(scale: real, h1: nat, h2: nat, n: nat)
    requires 0 < n && h2 <= h1 <= n && 0.0 <= scale
    ensures 0.0 <= ScaleByFraction(scale, h2, n).v <= ScaleByFraction(scale, h1, n).v <= scale
  {
    FractionWithinScale(scale, h1, n);
    FractionWithinScale(scale, h2, n);
    FractionMonotone(scale, h2, h1, n);
  }
}

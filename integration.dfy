/** The generic sample-mean integrator `MC_Integration<Function>::operator()`
    (MC_integration.H): the integral of f over [a, b] estimated as
    (b - a) times the mean of f over the drawn samples. */
module Integration {
  import opened Numerics

  /** The C++ `int` that carries the bounds a and b. */
  newtype Int32 = x: int | -0x8000_0000 <= x < 0x8000_0000

  /** The value of `sum` after the samples xs have been drawn in order, one call of
      f per sample. */
  function SampleSum(f: real -> real, xs: seq<real>): real
  {
    if xs == [] then 0.0 else SampleSum(f, xs[..|xs| - 1]) + f(xs[|xs| - 1])
  }

  /** `sum * (b - a) / num_it` for the samples xs, num_it being their number. */
  function SampleMean(f: real -> real, a: int, b: int, xs: seq<real>): Quotient
  {
    Divide(SampleSum(f, xs) * (b - a) as real, |xs|)
  }

  /** Samples drawn in two batches can be summed separately and added. */
  lemma {:induction false} SampleSumAppend(f: real -> real, xs: seq<real>, ys: seq<real>)
    ensures SampleSum(f, xs + ys) == SampleSum(f, xs) + SampleSum(f, ys)
  {
    if ys != [] {
      var k := |ys| - 1;
      SampleSumAppend(f, xs, ys[..k]);
      assert (xs + ys)[..|xs + ys| - 1] == xs + ys[..k];
    } else {
      assert xs + ys == xs;
    }
  }

  /** If every sampled value of f is at least lo, the sum is at least lo per sample. */
  lemma {:induction false} SampleSumAtLeast(f: real -> real, xs: seq<real>, lo: real)
    requires forall i :: 0 <= i < |xs| ==> lo <= f(xs[i])
    ensures lo * |xs| as real <= SampleSum(f, xs)
  {
    if xs != [] {
      var k := |xs| - 1;
      assert forall i :: 0 <= i < k ==> xs[..k][i] == xs[i];
      SampleSumAtLeast(f, xs[..k], lo);
      assert lo * |xs| as real == lo * k as real + lo;
    }
  }

  /** If every sampled value of f is at most hi, the sum is at most hi per sample. */
  lemma {:induction false} SampleSumAtMost(f: real -> real, xs: seq<real>, hi: real)
    requires forall i :: 0 <= i < |xs| ==> f(xs[i]) <= hi
    ensures SampleSum(f, xs) <= hi * |xs| as real
  {
    if xs != [] {
      var k := |xs| - 1;
      assert forall i :: 0 <= i < k ==> xs[..k][i] == xs[i];
      SampleSumAtMost(f, xs[..k], hi);
      assert hi * |xs| as real == hi * k as real + hi;
    }
  }

  /** With no samples the final division is 0.0 / 0.0, which is NaN. */
  lemma NoSamplesIsNaN(f: real -> real, a: int, b: int)
    ensures SampleMean(f, a, b, []) == NotANumber
  {
  }

  lemma ScaledMeanBetween(sum: real, n: nat, width: real, lo: real, hi: real)
    requires 0 < n && 0.0 <= width
    requires lo * n as real <= sum <= hi * n as real
    ensures lo * width <= Divide(sum * width, n).v <= hi * width
  {
    var q := Divide(sum * width, n).v;
    assert q * n as real == sum * width;
    assert (q - lo * width) * n as real == (sum - lo * n as real) * width;
    assert (hi * width - q) * n as real == (hi * n as real - sum) * width;
  }

  /** If every sampled value of f lies in [lo, hi], the estimate lies in
      [lo * (b - a), hi * (b - a)]. */
  lemma EstimateBetween(f: real -> real, a: int, b: int, xs: seq<real>, lo: real, hi: real)
    requires a <= b && |xs| > 0
    requires forall i :: 0 <= i < |xs| ==> lo <= f(xs[i]) <= hi
    ensures lo * (b - a) as real <= SampleMean(f, a, b, xs).v <= hi * (b - a) as real
  {
    SampleSumAtLeast(f, xs, lo);
    SampleSumAtMost(f, xs, hi);
    ScaledMeanBetween(SampleSum(f, xs), |xs|, (b - a) as real, lo, hi);
  }

  /** For an integrand that is the constant c on the samples, the estimate is exactly
      c * (b - a). */
  lemma EstimateOfConstant(f: real -> real, a: int, b: int, xs: seq<real>, c: real)
    requires a <= b && |xs| > 0
    requires forall i :: 0 <= i < |xs| ==> f(xs[i]) == c
    ensures SampleMean(f, a, b, xs) == Value(c * (b - a) as real)
  {
    EstimateBetween(f, a, b, xs, c, c);
  }

  /** A degenerate interval gives 0 whatever f is. */
  lemma EstimateOfEmptyInterval(f: real -> real, a: int, xs: seq<real>)
    requires |xs| > 0
    ensures SampleMean(f, a, a, xs) == Value(0.0)
  {
    var q := SampleMean(f, a, a, xs).v;
    assert q * |xs| as real == SampleSum(f, xs) * 0.0;
  }

  /** An integrand that is non-negative on [a, b], sampled inside [a, b], has a
      non-negative estimate. */
  lemma EstimateNonNegative(f: real -> real, a: int, b: int, xs: seq<real>)
    requires a <= b && |xs| > 0
    requires forall i :: 0 <= i < |xs| ==> a as real <= xs[i] <= b as real
    requires forall x: real :: a as real <= x <= b as real ==> f(x) >= 0.0
    ensures SampleMean(f, a, b, xs).v >= 0.0
  {
    SampleSumAtLeast(f, xs, 0.0);
    ScaledMeanBetween(SampleSum(f, xs), |xs|, (b - a) as real, 0.0, SampleSum(f, xs));
  }

  /** `MC_Integration<Function>`: an integrator bound to one integrand. */
  class Integrator {
    const f: real -> real

    constructor (f: real -> real)
      ensures this.f == f
    {
      this.f := f;
    }

    /** `operator()(a, b, num_it, seed)`, with `draws` the num_it values the uniform
        sampler on [a, b] produces in order. */
    method Integrate(a: Int32, b: Int32, numIt: nat, draws: seq<real>) returns (r: Quotient)
      requires a <= b
      requires b as int - a as int < 0x8000_0000
      requires |draws| == numIt
      ensures r == SampleMean(f, a as int, b as int, draws)
      ensures numIt == 0 <==> r == NotANumber
    {
      var sum := 0.0;
      for i := 0 to numIt
        invariant sum == SampleSum(f, draws[..i])
      {
        assert draws[..i + 1][..i] == draws[..i];
        var x := draws[i];
        sum := sum + f(x);
      }
      assert draws[..numIt] == draws;
      var width := b - a;
      assert sum * width as real == SampleSum(f, draws) * (b as int - a as int) as real;
      r := Divide(sum * width as real, numIt);
    }
  }
}

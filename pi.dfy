/** The classic estimate of pi (MC_pi.C): draw n points of the unit square, count
    those inside the unit circle and return 4 * hits / n. */
module PiEstimator {
  import opened Numerics

  /** The acceptance test of the loop; a point on the circle is a hit. */
  predicate InUnitDisk(x: real, y: real)
  {
    x * x + y * y <= 1.0
  }

  /** Iteration i consumes the draws 2i (for x) and 2i + 1 (for y). */
  predicate HitAt(draws: seq<real>, i: nat)
    requires 2 * i + 1 < |draws|
  {
    InUnitDisk(draws[2 * i], draws[2 * i + 1])
  }

  /** The value of `hits` after the loop has consumed `draws`, two per iteration. */
  function PairHits(draws: seq<real>): nat
    requires |draws| % 2 == 0
  {
    if draws == [] then 0
    else PairHits(draws[..|draws| - 2])
         + (if InUnitDisk(draws[|draws| - 2], draws[|draws| - 1]) then 1 else 0)
  }

  /** At most one hit per iteration. */
  lemma {:induction false} PairHitsAtMost(draws: seq<real>)
    requires |draws| % 2 == 0
    ensures PairHits(draws) <= |draws| / 2
  {
    if draws != [] {
      PairHitsAtMost(draws[..|draws| - 2]);
    }
  }

  /** `hits` counts exactly the iterations whose pair lies in the unit disk. */
  lemma {:induction false} PairHitsIsCardinality(draws: seq<real>)
    requires |draws| % 2 == 0
    ensures PairHits(draws) == |set i | 0 <= i < |draws| / 2 && HitAt(draws, i)|
  {
    if draws != [] {
      var k := |draws| / 2 - 1;
      var prefix := draws[..|draws| - 2];
      PairHitsIsCardinality(prefix);
      var before := set i | 0 <= i < k && HitAt(prefix, i);
      var after := set i | 0 <= i < |draws| / 2 && HitAt(draws, i);
      assert forall i :: 0 <= i < k ==> HitAt(prefix, i) == HitAt(draws, i);
      if HitAt(draws, k) {
        assert after == before + {k};
      } else {
        assert after == before;
      }
    }
  }

  /** `hits` never decreases from one iteration to the next. */
  lemma {:induction false} HitsNeverDecrease(draws: seq<real>, i: nat, j: nat)
    requires |draws| % 2 == 0 && i <= j <= |draws| / 2
    ensures PairHits(draws[..2 * i]) <= PairHits(draws[..2 * j])
  {
    if i < j {
      HitsNeverDecrease(draws, i, j - 1);
      assert draws[..2 * j][..2 * j - 2] == draws[..2 * (j - 1)];
    }
  }

  /** When every pair is a hit, `hits == n`. */
  lemma {:induction false} AllHits(draws: seq<real>)
    requires |draws| % 2 == 0
    requires forall i :: 0 <= i < |draws| / 2 ==> HitAt(draws, i)
    ensures PairHits(draws) == |draws| / 2
  {
    if draws != [] {
      var prefix := draws[..|draws| - 2];
      assert forall i :: 0 <= i < |prefix| / 2 ==> HitAt(prefix, i) == HitAt(draws, i);
      AllHits(prefix);
      assert HitAt(draws, |draws| / 2 - 1);
    }
  }

  /** When no pair is a hit, `hits == 0`. */
  lemma {:induction false} NoHits(draws: seq<real>)
    requires |draws| % 2 == 0
    requires forall i :: 0 <= i < |draws| / 2 ==> !HitAt(draws, i)
    ensures PairHits(draws) == 0
  {
    if draws != [] {
      var prefix := draws[..|draws| - 2];
      assert forall i :: 0 <= i < |prefix| / 2 ==> HitAt(prefix, i) == HitAt(draws, i);
      NoHits(prefix);
      assert !HitAt(draws, |draws| / 2 - 1);
    }
  }

  /** The point (1, 0) lies on the circle and is counted. */
  lemma BoundaryPointIsHit()
    ensures PairHits([1.0, 0.0]) == 1
  {
    assert [1.0, 0.0][..0] == [];
  }

  /** For n > 0 the estimate lies in [0, 4]; it is 4 when every pair is a hit and 0
      when none is. */
  lemma EstimateRange(hits: nat, n: nat)
    requires 0 < n && hits <= n
    ensures 0.0 <= ScaleByFraction(4.0, hits, n).v <= 4.0
    ensures hits == n ==> ScaleByFraction(4.0, hits, n) == Value(4.0)
    ensures hits == 0 ==> ScaleByFraction(4.0, hits, n) == Value(0.0)
  {
    FractionWithinScale(4.0, hits, n);
    if hits == n {
      assert (4.0 * n as real) / n as real == 4.0;
    }
  }

  /** The sampling loop and the estimate of `main` (lines 50-61 and 73), with `draws`
      the 2n values the uniform sampler produces, in order. */
  method EstimatePi(n: nat, draws: seq<real>) returns (hits: nat, pi: Quotient)
    requires |draws| == 2 * n
    ensures hits == PairHits(draws) && hits <= n
    ensures pi == ScaleByFraction(4.0, hits, n)
    ensures n > 0 ==> 0.0 <= pi.v <= 4.0
  {
    hits := 0;
    for i := 0 to n
      invariant hits == PairHits(draws[..2 * i])
      invariant hits <= i
    {
      assert draws[..2 * i + 2][..2 * i] == draws[..2 * i];
      var x := draws[2 * i];
      var y := draws[2 * i + 1];
      if x * x + y * y <= 1.0 {
        hits := hits + 1;
      }
    }
    assert draws[..2 * n] == draws;
    pi := ScaleByFraction(4.0, hits, n);
    if n > 0 {
      EstimateRange(hits, n);
    }
  }
}

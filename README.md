# Monte Carlo estimators, modelled in Dafny

The repository holds three small Monte Carlo programs:

- **MC_spheres.C** estimates the volume of a set of spheres, and the volume of the part
  where at least two of them overlap. It derives the axis-aligned bounding
  parallelepiped of the spheres (`find_min_and_max`), draws points uniformly inside it,
  classifies each point by how many spheres contain it (`is_inside_region`, a
  squared-distance test), counts the points inside at least one sphere (`hits`) and
  inside at least two (`overlapping_hits`), and scales the box volume by each hit
  fraction. It also sums 4/3 pi r^3 over the spheres as a theoretical cross-check
  (`compute_spheres_theoretical_volume`).
- **MC_integration.H** is the generic sample-mean integrator `MC_Integration<Function>`:
  `operator()(a, b, num_it, seed)` draws `num_it` samples in [a, b], accumulates
  `sum += f(x)` and returns `sum * (b - a) / num_it`.
- **MC_pi.C** draws pairs (x, y) in the unit square, counts those with x^2 + y^2 <= 1 and
  returns `4 * hits / n`.

The random draws are inputs to the model. Each sampling loop is a Dafny method over a
caller-supplied sequence of draws, in the order the generator produces them. `double` is
modelled as exact `real`. The model files are:

- `numerics.dfy` (module `Numerics`) holds `numeric_limits<double>::max()` written out
  exactly. It also holds the final division by a sample count: a zero count gives
  `NotANumber`, which is what `0.0 / 0.0` yields in the programs.
- `spheres.dfy` (module `Spheres`) models MC_spheres.C. The loops of `find_min_and_max`,
  `is_inside_region`, `compute_spheres_theoretical_volume` and `main` are methods. Each
  is proved equal to a recursive function that processes the list in the same order,
  and the properties are proved as lemmas about those functions.
- `integration.dfy` (module `Integration`) models MC_integration.H. It has a class
  `Integrator` with the integrand as a constant field, and its method `Integrate`
  models `operator()`.
- `pi.dfy` (module `PiEstimator`) models MC_pi.C. Iteration i consumes draw 2i as x and
  draw 2i + 1 as y.

## Behaviour at the edges

- With zero samples none of the programs stops with an error. Each divides 0 by 0.0,
  which is NaN, so the model returns `NotANumber`.
- An empty sphere list is not rejected. `find_min_and_max` returns the sentinel box
  min = (max, max, max), max = (-max, -max, -max), and `main` goes on to sample it. The
  model returns the same sentinel. `EstimateVolumes` requires every point to lie in the
  box, and nothing lies in the inverted sentinel box, so with an empty list it admits
  only zero points.
- For a = b the integrator still draws `num_it` samples, and the factor `b - a` makes
  the result 0.
- The integration bounds are C++ `int`s. The model takes them as a 32-bit `Int32`.
- `read_spheres_file` does not reject negative radii. The range of the volume estimates
  holds for every list whose box can hold the drawn points, negative radii included.

## Model

| member | source | states |
|---|---|---|
| `Numerics.Divide` | MC_integration.H:67 | dividing by a sample count gives NaN exactly when the count is 0 |
| `Numerics.ScaleByFraction` | MC_spheres.C:220-223 | `scale * double(k) / double(n)` is NaN exactly when n is 0 |
| `Numerics.FractionWithinScale` | MC_spheres.C:220-223 | for 0 < n, k <= n and scale >= 0, the scaled fraction lies in [0, scale] |
| `Numerics.FractionMonotone` | MC_spheres.C:220-223 | a larger accepted count gives a scaled fraction at least as large |
| `Numerics.ScaledCountsOrdered` | MC_spheres.C:220-223 | counts h2 <= h1 <= n scale to 0 <= q2 <= q1 <= scale |
| `Spheres.BoxEncloses` | MC_spheres.C:82-101 | for every sphere and axis, the lower bound is <= c - r and the upper bound is >= c + r |
| `Spheres.BoundsAttained` | MC_spheres.C:77-101 | each bound either is still its sentinel (max or -max) or equals c - r (c + r) of some sphere of the list |
| `Spheres.BoxTight` | MC_spheres.C:84-100 | for a non-empty list whose extents are within the double range, each bound equals c - r (c + r) of some sphere |
| `Spheres.BoxOrdered` | MC_spheres.C:82-101 | for a non-empty list with radii >= 0, lower bound <= upper bound on every axis, so each side of the parallelepiped is >= 0 |
| `Spheres.FindMinAndMax` | MC_spheres.C:75-104 | the loop returns the corners of the bounding box: they enclose every sphere on every axis, and an empty list gives the sentinel pair |
| `Spheres.BoxVolumeNonNegative` | MC_spheres.C:212-218 | side_a * side_b * side_c is >= 0 when every side is >= 0 |
| `Spheres.ContainmentCountAtMost` | MC_spheres.C:114-122 | the containment counter never exceeds the number of spheres |
| `Spheres.ContainmentCountIsCardinality` | MC_spheres.C:114-120 | the counter equals the number of indices i with squared distance from p to centre i <= r_i^2 |
| `Spheres.ContainedSomewhere` | MC_spheres.C:114-122 | the counter is >= 1 if and only if some sphere contains the point |
| `Spheres.IsInsideRegion` | MC_spheres.C:111-123 | the result is true exactly when the count of containing spheres is >= limit; limit 0 gives true and limit > number of spheres gives false |
| `Spheres.SquareBound` | MC_spheres.C:117-119 | d^2 <= r^2 with r >= 0 gives -r <= d <= r |
| `Spheres.InsideSphereWithinExtent` | MC_spheres.C:117-119 | a point that passes the test of a sphere with r >= 0 lies within [c - r, c + r] on every axis |
| `Spheres.UnionWithinBox` | MC_spheres.C:197-205 | with radii >= 0, every point inside some sphere lies in the bounding box, so sampling the box misses no part of the union |
| `Spheres.HitCountAtMost` | MC_spheres.C:201-210 | a hit count never exceeds the number of points |
| `Spheres.HitCountAntitone` | MC_spheres.C:205-209 | raising the threshold never adds hits, so overlapping_hits <= hits |
| `Spheres.SingleSphereNoOverlap` | MC_spheres.C:208-209 | with one sphere no point is an overlap hit |
| `Spheres.CoincidentSpheresOverlapFully` | MC_spheres.C:205-209 | with two coincident copies of a sphere, overlapping_hits == hits |
| `Spheres.HitCountAppend` | MC_spheres.C:201-210 | hits over two batches of points are the sum of the hits of each batch |
| `Spheres.CountHits` | MC_spheres.C:201-210 | the loop computes hits (threshold 1) and overlapping_hits (threshold 2) over the points, with overlapping_hits <= hits <= num |
| `Spheres.SphereVolumeNonNegative` | MC_spheres.C:154 | 4 pi r^3 / 3 is >= 0 for r >= 0 |
| `Spheres.TheoreticalVolumeNonNegative` | MC_spheres.C:149-157 | the sum of sphere volumes is >= 0 when all radii are >= 0 |
| `Spheres.TheoreticalVolumeAppend` | MC_spheres.C:149-157 | the theoretical volume is additive over concatenation of sphere lists |
| `Spheres.ComputeTheoreticalVolume` | MC_spheres.C:149-157 | the loop returns the sum of 4 pi r^3 / 3 over the list, which is >= 0 when all radii are >= 0 |
| `Spheres.EstimateIngredients` | MC_spheres.C:201-218 | for a non-empty list with radii >= 0, the parallelepiped volume is >= 0 and overlapping_hits <= hits <= num |
| `Spheres.OccupiedBoxNonNegative` | MC_spheres.C:212-218 | a box that holds some drawn point has every side >= 0, so side_a * side_b * side_c >= 0 |
| `Spheres.EstimateVolumes` | MC_spheres.C:183-223 | main returns the bounding box and both volumes as box volume * hits / num; the volumes are NaN when there are no points, and 0 <= overlapping_res <= res <= parallelepiped_volume otherwise, whatever the radii |
| `Integration.SampleSumAppend` | MC_integration.H:59-65 | the sum over two batches of samples is the sum of the two partial sums |
| `Integration.SampleSumAtLeast` | MC_integration.H:59-65 | if each sampled value of f is >= lo, then sum >= lo * num_it |
| `Integration.SampleSumAtMost` | MC_integration.H:59-65 | if each sampled value of f is <= hi, then sum <= hi * num_it |
| `Integration.NoSamplesIsNaN` | MC_integration.H:61-67 | with num_it = 0 the result is NaN |
| `Integration.ScaledMeanBetween` | MC_integration.H:67 | a sum between lo * n and hi * n, times a width >= 0 and divided by n, lies between lo * width and hi * width |
| `Integration.EstimateBetween` | MC_integration.H:55-67 | if a <= b and each sampled value of f lies in [lo, hi], the result lies in [lo * (b - a), hi * (b - a)] |
| `Integration.EstimateOfConstant` | MC_integration.H:59-67 | for f equal to c on the samples, the result is exactly c * (b - a) |
| `Integration.EstimateOfEmptyInterval` | MC_integration.H:67 | for a = b and num_it > 0 the result is 0 whatever f is |
| `Integration.EstimateNonNegative` | MC_integration.H:55-67 | for a <= b, samples in [a, b] and f >= 0 on [a, b], the result is >= 0 |
| `Integration.Integrator.constructor` | MC_integration.H:39-49 | the integrator holds the given integrand |
| `Integration.Integrator.Integrate` | MC_integration.H:51-70 | the loop makes one call of f per draw and returns (sum of f over the draws) * (b - a) / num_it, which is NaN exactly when num_it = 0 |
| `PiEstimator.PairHitsAtMost` | MC_pi.C:54-61 | hits <= n |
| `PiEstimator.PairHitsIsCardinality` | MC_pi.C:54-61 | hits is the number of iterations i whose pair (draw 2i, draw 2i + 1) satisfies x*x + y*y <= 1 |
| `PiEstimator.HitsNeverDecrease` | MC_pi.C:54-61 | hits after i iterations is <= hits after j >= i iterations |
| `PiEstimator.AllHits` | MC_pi.C:54-61 | when every pair is inside the circle, hits = n |
| `PiEstimator.NoHits` | MC_pi.C:54-61 | when no pair is inside the circle, hits = 0 |
| `PiEstimator.BoundaryPointIsHit` | MC_pi.C:59 | the point (1, 0) on the circle counts as a hit |
| `PiEstimator.EstimateRange` | MC_pi.C:73 | for n > 0 the estimate 4 * hits / n lies in [0, 4]; it is 4 when hits = n and 0 when hits = 0 |
| `PiEstimator.EstimatePi` | MC_pi.C:50-73 | the loop consumes two draws per iteration and returns hits <= n and the estimate 4 * hits / n, which lies in [0, 4] for n > 0 |

## Left out

- `read_spheres_file` (MC_spheres.C:125-147) is file-stream input with end-of-file handling. The model takes the sphere list as an input.
- Timing, the usage message, `to_string` and all console output are left out. They have no algorithmic content.
- `mt19937`, `mt19937_64`, `uniform_real_distribution`, `std::bind`, time-derived seeds and `atol` parsing are foreign library code. The draws they produce are parameters of the model, and the seed parameter of `operator()` has no counterpart.
- MC_integration.C is only a `main` wrapper around the integrator, with the transcendental integrand `exp(-x*x)`. It is not part of this model.
- IEEE double rounding, overflow to infinity and the 53-bit precision of `double(hits)` are not modelled: all arithmetic is exact `real`. `M_PI` is its decimal literal, and the lemmas use only that it is positive.
- Statistical claims, such as convergence to pi or an error of O(1/sqrt(n)), are probabilistic and cannot be stated about a fixed sequence of draws.
- The integrand is a pure total function `real -> real`. A C++ function object whose `operator()` changes its own state is not covered.
- Numerics.Divide: a zero count gives NaN for every numerator, while IEEE gives an infinity when the numerator is non-zero. None of the three programs reaches that case, because their numerator is 0 whenever the count is.
- Spheres.BoxTight: requires every extent c - r to be <= DoubleMax and every c + r to be >= -DoubleMax. In IEEE doubles those are the only finite values, but exact reals can exceed them.
- Spheres.EstimateVolumes: requires every drawn point to lie in the closed box. This is the range of the three uniform distributions. For an empty list the distributions receive inverted bounds, which the C++ library does not allow.
- Integration.Integrator.Integrate: requires a <= b, which `uniform_real_distribution` demands. It also requires b - a to fit in an `int`, because signed overflow is undefined behaviour in C++.
